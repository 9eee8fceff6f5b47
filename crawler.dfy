/**
 * The pure and counting parts of scripts/crawl_docs_to_pdf.py: the file name
 * a page URL's path is saved under, and the saved/failed tallies of
 * `crawl_site` and `main`. Whether printing one page succeeded is an outside
 * outcome, passed in as a function.
 */
module Crawler {
  import opened PyText

  /** The character class `[/\\]`. */
  predicate IsSeparator(c: char) { c == '/' || c == '\\' }

  /** The characters the class `[^a-zA-Z0-9_\-.]` leaves alone. */
  predicate IsSafe(c: char) {
    ('a' <= c <= 'z') || ('A' <= c <= 'Z') || ('0' <= c <= '9') || c == '_' || c == '-' || c == '.'
  }

  /** `re.sub(r"[/\\]", "__", s)`: each separator doubles into underscores, so none is left. */
  function SubSeparators(s: string): (r: string)
    ensures |r| == |s| + Separators(s)
    ensures forall k :: 0 <= k < |r| ==> !IsSeparator(r[k])
  {
    if s == [] then []
    else SubSeparators(s[..|s| - 1]) + (if IsSeparator(s[|s| - 1]) then "__" else [s[|s| - 1]])
  }

  /** `re.sub(r"[^a-zA-Z0-9_\-.]", "_", s)`: every unsafe character, and only those, becomes `'_'`. */
  function SubUnsafe(s: string): (r: string)
    ensures |r| == |s|
    ensures forall k :: 0 <= k < |s| ==> r[k] == if IsSafe(s[k]) then s[k] else '_'
  {
    if s == [] then []
    else SubUnsafe(s[..|s| - 1]) + [if IsSafe(s[|s| - 1]) then s[|s| - 1] else '_']
  }

  /** `url_to_filename`, given the URL's parsed path: never empty, and only safe characters. */
  function UrlToFilename(path: string): (name: string)
    ensures name != []
    ensures forall k :: 0 <= k < |name| ==> IsSafe(name[k])
  {
    var stripped := StripWhere(path, IsSlash);
    if stripped == [] then "index"
    else SubUnsafe(SubSeparators(stripped))
  }

  /** The name `print_page_to_pdf` saves a page under. */
  function PdfFileName(path: string): (name: string)
    ensures name == UrlToFilename(path) + ".pdf"
    ensures |name| > 4 && name[|name| - 4..] == ".pdf"
  {
    UrlToFilenameShape(path);
    UrlToFilename(path) + ".pdf"
  }

  /** What one character of the stripped path becomes in the file name. */
  function Image(c: char): string {
    if IsSeparator(c) then "__" else if IsSafe(c) then [c] else "_"
  }

  /** The two substitutions in one pass, character by character. */
  function Expand(s: string): string {
    if s == [] then [] else Expand(s[..|s| - 1]) + Image(s[|s| - 1])
  }

  function Separators(s: string): nat {
    if s == [] then 0 else Separators(s[..|s| - 1]) + (if IsSeparator(s[|s| - 1]) then 1 else 0)
  }

  lemma {:induction false} SubUnsafeAppend(a: string, b: string)
    ensures SubUnsafe(a + b) == SubUnsafe(a) + SubUnsafe(b)
    decreases |b|
  {
    if b == [] {
      assert a + b == a;
    } else {
      assert (a + b)[..|a + b| - 1] == a + b[..|b| - 1];
      SubUnsafeAppend(a, b[..|b| - 1]);
    }
  }

  /** Running the two `re.sub` calls one after the other maps each character of the path on its own. */
  lemma {:induction false} SubstitutionsExpand(s: string)
    ensures SubUnsafe(SubSeparators(s)) == Expand(s)
    decreases |s|
  {
    if s != [] {
      var init, c := s[..|s| - 1], s[|s| - 1];
      SubstitutionsExpand(init);
      var piece: string := if IsSeparator(c) then "__" else [c];
      assert SubSeparators(s) == SubSeparators(init) + piece;
      SubUnsafeAppend(SubSeparators(init), piece);
      assert SubUnsafe(piece) == Image(c);
    }
  }

  /**
   * Each separator becomes two characters and every other character one:
   * the length is the path's plus its separator count, and every character
   * of the result is safe.
   */
  lemma {:induction false} ExpandShape(s: string)
    ensures |Expand(s)| == |s| + Separators(s)
    ensures forall k :: 0 <= k < |Expand(s)| ==> IsSafe(Expand(s)[k])
    decreases |s|
  {
    if s != [] {
      ExpandShape(s[..|s| - 1]);
    }
  }

  /** Without separators, every character stays in place, unsafe ones replaced by `'_'`. */
  lemma {:induction false} ExpandInPlace(s: string)
    requires Separators(s) == 0
    ensures |Expand(s)| == |s|
    ensures forall k :: 0 <= k < |s| ==> Expand(s)[k] == if IsSafe(s[k]) then s[k] else '_'
    decreases |s|
  {
    if s != [] {
      ExpandInPlace(s[..|s| - 1]);
    }
  }

  /**
   * The file name is never empty and consists only of safe characters; it
   * is `"index"` when the path is nothing but slashes, and otherwise
   * as long as the stripped path plus one per separator in it.
   */
  lemma UrlToFilenameShape(path: string)
    ensures var name, stripped := UrlToFilename(path), StripWhere(path, IsSlash);
      && name != []
      && (forall k :: 0 <= k < |name| ==> IsSafe(name[k]))
      && (stripped == [] ==> name == "index")
      && (stripped != [] ==> name == Expand(stripped) && |name| == |stripped| + Separators(stripped))
  {
    var stripped := StripWhere(path, IsSlash);
    if stripped != [] {
      SubstitutionsExpand(stripped);
      ExpandShape(stripped);
    }
  }

  /** The `"index"` name belongs to the paths made only of slashes (the empty path included). */
  lemma IndexForSlashesOnly(path: string)
    requires forall k :: 0 <= k < |path| ==> path[k] == '/'
    ensures UrlToFilename(path) == "index"
  {
    StripEmptyIff(path, IsSlash);
  }

  lemma {:induction false} ExpandAppend(a: string, b: string)
    ensures Expand(a + b) == Expand(a) + Expand(b)
    decreases |b|
  {
    if b == [] {
      assert a + b == a;
    } else {
      var init := b[..|b| - 1];
      AppendInit(a, b);
      ExpandAppend(a, init);
      AppendAssoc(Expand(a), Expand(init), Image(b[|b| - 1]));
    }
  }

  /** A name made only of safe characters maps to itself. */
  lemma {:induction false} ExpandSafe(s: string)
    requires forall k :: 0 <= k < |s| ==> IsSafe(s[k])
    ensures Expand(s) == s
    decreases |s|
  {
    if s != [] {
      ExpandSafe(s[..|s| - 1]);
      SplitLast(s);
    }
  }

  lemma ExpandOne(c: char)
    ensures Expand([c]) == Image(c)
  {
    assert [c][..0] == [];
  }

  /** Only `'/'` is stripped: a leading backslash still becomes `"__"`. */
  lemma LeadingBackslash(rest: string)
    requires rest != [] && forall k :: 0 <= k < |rest| ==> IsSafe(rest[k])
    ensures UrlToFilename(['\\'] + rest) == "__" + rest
  {
    var p := ['\\'] + rest;
    assert p[|p| - 1] == rest[|rest| - 1];
    StripFixed(p, IsSlash);
    SubstitutionsExpand(p);
    ExpandAppend(['\\'], rest);
    ExpandOne('\\');
    ExpandSafe(rest);
  }

  /**
   * Distinct paths can share a file name: the nested page `a/b` and the page
   * `a__b` are both saved as `a__b`.
   */
  lemma NotInjective(a: string, b: string)
    requires a != [] && forall k :: 0 <= k < |a| ==> IsSafe(a[k])
    requires b != [] && forall k :: 0 <= k < |b| ==> IsSafe(b[k])
    ensures UrlToFilename(a + "/" + b) == UrlToFilename(a + "__" + b) == a + "__" + b
  {
    JoinedName(a, "/", b);
    JoinedName(a, "__", b);
  }

  /** Safe text joined by a separator or by `"__"` is saved as the two joined by `"__"`. */
  lemma JoinedName(a: string, mid: string, b: string)
    requires a != [] && forall k :: 0 <= k < |a| ==> IsSafe(a[k])
    requires b != [] && forall k :: 0 <= k < |b| ==> IsSafe(b[k])
    requires mid == "/" || mid == "__"
    ensures UrlToFilename(a + mid + b) == a + "__" + b
  {
    var p := a + mid + b;
    assert p[0] == a[0] && p[|p| - 1] == b[|b| - 1];
    UnslashedName(p);
    ExpandJoin(a, mid, b);
  }

  /** A path neither starting nor ending with `'/'` is not stripped, only expanded. */
  lemma UnslashedName(p: string)
    requires p != [] && p[0] != '/' && p[|p| - 1] != '/'
    ensures UrlToFilename(p) == Expand(p)
  {
    StripFixed(p, IsSlash);
    UrlToFilenameShape(p);
  }

  lemma ExpandJoin(a: string, mid: string, b: string)
    requires forall k :: 0 <= k < |a| ==> IsSafe(a[k])
    requires forall k :: 0 <= k < |b| ==> IsSafe(b[k])
    requires mid == "/" || mid == "__"
    ensures Expand(a + mid + b) == a + "__" + b
  {
    ExpandAppend(a + mid, b);
    ExpandAppend(a, mid);
    if mid == "/" {
      ExpandOne('/');
    } else {
      ExpandSafe("__");
    }
    ExpandSafe(a);
    ExpandSafe(b);
  }

  /** The saved count for the first `|urls|` pages: `printed(i, url)` is the outcome for the `i`-th URL, counting from 1. */
  function Saved(urls: seq<string>, printed: (nat, string) -> bool): (n: nat)
    ensures n <= |urls|
  {
    if urls == [] then 0
    else Saved(urls[..|urls| - 1], printed) + (if printed(|urls|, urls[|urls| - 1]) then 1 else 0)
  }

  /** All pages count as saved exactly when every print succeeded, and none exactly when every print failed. */
  lemma {:induction false} SavedExtremes(urls: seq<string>, printed: (nat, string) -> bool)
    ensures Saved(urls, printed) == |urls| <==> forall i :: 0 <= i < |urls| ==> printed(i + 1, urls[i])
    ensures Saved(urls, printed) == 0 <==> forall i :: 0 <= i < |urls| ==> !printed(i + 1, urls[i])
    decreases |urls|
  {
    if urls != [] {
      var init := urls[..|urls| - 1];
      SavedExtremes(init, printed);
      assert forall i :: 0 <= i < |init| ==> init[i] == urls[i];
    }
  }

  /** `crawl_site`: one print per URL, each counted as saved or failed. */
  method CrawlSite(urls: seq<string>, printed: (nat, string) -> bool) returns (success: nat, failed: nat)
    ensures success == Saved(urls, printed)
    ensures success + failed == |urls|
  {
    success := 0;
    failed := 0;
    for i := 1 to |urls| + 1
      invariant success == Saved(urls[..i - 1], printed)
      invariant success + failed == i - 1
    {
      assert urls[..i][..i - 1] == urls[..i - 1];
      if printed(i, urls[i - 1]) {
        success := success + 1;
      } else {
        failed := failed + 1;
      }
    }
    assert urls[..|urls|] == urls;
  }

  /** One site of the crawl: its name (the output directory) and its pages. */
  datatype Site = Site(name: string, urls: seq<string>)

  function SiteOutcome(printed: (string, nat, string) -> bool, name: string): (nat, string) -> bool {
    (i: nat, url: string) => printed(name, i, url)
  }

  function TotalSaved(sites: seq<Site>, printed: (string, nat, string) -> bool): nat {
    if sites == [] then 0
    else TotalSaved(sites[..|sites| - 1], printed)
         + Saved(sites[|sites| - 1].urls, SiteOutcome(printed, sites[|sites| - 1].name))
  }

  function TotalPages(sites: seq<Site>): nat {
    if sites == [] then 0 else TotalPages(sites[..|sites| - 1]) + |sites[|sites| - 1].urls|
  }

  /** The grand total of saved pages never exceeds the number of pages. */
  lemma {:induction false} TotalSavedBounded(sites: seq<Site>, printed: (string, nat, string) -> bool)
    ensures TotalSaved(sites, printed) <= TotalPages(sites)
    decreases |sites|
  {
    if sites != [] {
      TotalSavedBounded(sites[..|sites| - 1], printed);
    }
  }

  /** `main`: crawl each site in turn and add its counts to the totals. */
  method CrawlAll(sites: seq<Site>, printed: (string, nat, string) -> bool) returns (totalSuccess: nat, totalFailed: nat)
    ensures totalSuccess == TotalSaved(sites, printed)
    ensures totalSuccess + totalFailed == TotalPages(sites)
  {
    totalSuccess := 0;
    totalFailed := 0;
    for k := 0 to |sites|
      invariant totalSuccess == TotalSaved(sites[..k], printed)
      invariant totalSuccess + totalFailed == TotalPages(sites[..k])
    {
      assert sites[..k + 1][..k] == sites[..k];
      var s, f := CrawlSite(sites[k].urls, SiteOutcome(printed, sites[k].name));
      totalSuccess := totalSuccess + s;
      totalFailed := totalFailed + f;
    }
    assert sites[..|sites|] == sites;
  }
}
