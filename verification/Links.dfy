/** The documentation link rewriter (scripts/mdbook_seo.py): links without `.html`, and the paths pages are
    served at, against relative reference resolution as RFC 3986 defines it. */
module Links {
  import opened Options
  import opened Uri

  // ------------------------------------------------------------------ the two regular expressions

  /** `[a-z]` when case is ignored: Python lets four letters beyond ASCII fold into that range. */
  predicate FoldedLetter(c: char) {
    AsciiLetter(c) || c == '\U{0130}' || c == '\U{0131}' || c == '\U{017F}' || c == '\U{212A}'
  }

  predicate FoldedSchemeChar(c: char) {
    FoldedLetter(c) || '0' <= c <= '9' || c == '+' || c == '.' || c == '-'
  }

  predicate Absolute(href: string) {
    var k := FirstOf(href, {':'});
    || (0 < k < |href| && FoldedLetter(href[0]) && forall i | 0 <= i < k :: FoldedSchemeChar(href[i]))
    || StartsWith(href, "//")
    || StartsWith(href, "#")
  }

  const HTML := ".html"

  /** One way the suffix expression can match: `rest` is the newline that `$` may leave unmatched. */
  predicate SuffixMatch(href: string, base: string, tail: string, rest: string) {
    && href == base + HTML + tail + rest
    && '#' !in base && '?' !in base
    && (tail != "" ==> (tail[0] == '#' || tail[0] == '?') && '\n' !in tail)
    && (rest == "" || rest == "\n")
  }

  function PathOf(href: string): string {
    href[..PathEnd(href)]
  }

  function TailOf(href: string): string {
    href[PathEnd(href)..]
  }

  function HtmlSuffix(href: string): Option<(string, string)> {
    var path, tail := PathOf(href), TailOf(href);
    var kept := if EndsWith(tail, "\n") then Chop(tail, 1) else tail;
    if EndsWith(path, HTML) && '\n' !in kept then Some((Chop(path, 5), kept))
    else if tail == "" && EndsWith(path, HTML + "\n") then Some((Chop(path, 6), ""))
    else None
  }

  // ------------------------------------------------------------------ clean_href and canonical_path

  function CleanHref(href: string): string {
    if Absolute(href) then href
    else
      match HtmlSuffix(href)
      case None => href
      case Some((base, tail)) =>
        if EndsWith(base, "index") then (if |base| == 5 then "./" else Chop(base, 5)) + tail
        else base + tail
  }

  function CanonicalPath(parts: string): string
    requires EndsWith(parts, HTML)
  {
    if parts == "index.html" then "/"
    else if EndsWith(parts, "/index.html") then "/" + Chop(parts, 10)
    else "/" + Chop(parts, 5)
  }

  // ------------------------------------------------------------------ pages

  /** A built file: its directories below the build directory, and its name before `.html`. */
  datatype Page = Page(dirs: seq<string>, stem: string)

  predicate FileName(s: string) {
    s != "" && s != "." && s != ".." && '/' !in s
  }

  predicate ValidPage(p: Page) {
    (forall d | d in p.dirs :: FileName(d)) && '/' !in p.stem
  }

  function Join(dirs: seq<string>): (r: string)
    ensures r == "" || r[|r| - 1] == '/'
    decreases |dirs|
  {
    if dirs == [] then "" else dirs[0] + "/" + Join(dirs[1..])
  }

  function Folder(p: Page): (r: string)
    ensures IsDir(r)
  {
    "/" + Join(p.dirs)
  }

  function Posix(p: Page): (r: string)
    ensures EndsWith(r, HTML)
  {
    Join(p.dirs) + p.stem + HTML
  }

  function Canonical(p: Page): string {
    CanonicalPath(Posix(p))
  }

  // ------------------------------------------------------------------ the regular expression

  /** The suffix expression matches in at most one way, and `HtmlSuffix` finds it. */
  lemma HtmlSuffixExact(href: string, base: string, tail: string)
    ensures HtmlSuffix(href) == Some((base, tail)) <==>
            SuffixMatch(href, base, tail, "") || SuffixMatch(href, base, tail, "\n")
  {
    if HtmlSuffix(href) == Some((base, tail)) {
      FoundMatches(href);
    }
    if SuffixMatch(href, base, tail, "") {
      MatchFound(href, base, tail, "");
    } else if SuffixMatch(href, base, tail, "\n") {
      MatchFound(href, base, tail, "\n");
    }
  }

  lemma PathAndTail(href: string)
    ensures href == PathOf(href) + TailOf(href)
    ensures '#' !in PathOf(href) && '?' !in PathOf(href)
    ensures TailOf(href) != "" ==> TailOf(href)[0] == '#' || TailOf(href)[0] == '?'
  {
    assert forall i | 0 <= i < PathEnd(href) :: PathOf(href)[i] == href[i];
  }

  lemma FoundMatches(href: string)
    requires HtmlSuffix(href).Some?
    ensures var (base, tail) := HtmlSuffix(href).value;
            SuffixMatch(href, base, tail, "") || SuffixMatch(href, base, tail, "\n")
  {
    hide EndsWith, Chop, PathOf, TailOf;
    var path, t := PathOf(href), TailOf(href);
    PathAndTail(href);
    var (base, tail) := HtmlSuffix(href).value;
    if EndsWith(path, HTML) {
      EndsIs(path, HTML);
      if EndsWith(t, "\n") {
        EndsIs(t, "\n");
        if '\n' !in tail {
          assert href == base + HTML + tail + "\n";
        }
      } else if '\n' !in t {
        assert href == base + HTML + tail + "";
      }
    }
    if EndsWith(path, HTML + "\n") && t == "" {
      EndsIs(path, HTML + "\n");
      if !EndsWith(path, HTML) {
        assert href == base + HTML + tail + "\n";
      }
    }
  }

  lemma MatchFound(href: string, base: string, tail: string, rest: string)
    requires SuffixMatch(href, base, tail, rest)
    ensures HtmlSuffix(href) == Some((base, tail))
  {
    hide EndsWith, Chop, PathOf, TailOf, PathEnd;
    if tail == "" {
      PutTogether(base + HTML + rest, "");
      assert href == (base + HTML + rest) + "";
      NoNewlineEnd("");
      if rest == "" {
        EndsAppend(base, HTML);
        assert href == base + HTML;
      } else {
        assert href == base + (HTML + "\n") == (base + HTML) + "\n";
        EndsAppend(base, HTML + "\n");
        EndsApart(base + HTML);
      }
    } else {
      PutTogether(base + HTML, tail + rest);
      assert href == (base + HTML) + (tail + rest);
      EndsAppend(base, HTML);
      if rest == "" {
        assert tail + rest == tail;
        NoNewlineEnd(tail);
      } else {
        EndsAppend(tail, "\n");
      }
    }
  }

  lemma NoNewlineEnd(s: string)
    requires '\n' !in s
    ensures !EndsWith(s, "\n")
  {
    EndsChar(s, "\n", 0);
  }

  lemma EndsApart(s: string)
    ensures !EndsWith(s + "\n", HTML)
  {
    EndsChar(s + "\n", HTML, 4);
  }

  // ------------------------------------------------------------------ canonical paths

  /** A page is served at its folder plus its stem, `index` standing for the folder itself. */
  lemma CanonicalOf(p: Page)
    requires ValidPage(p)
    ensures Canonical(p) == Folder(p) + ServedName(p)
    ensures Directory(Canonical(p)) == Directory("/" + Posix(p)) == Folder(p)
  {
    hide EndsWith, Chop, Directory;
    var j, parts := Join(p.dirs), Posix(p);
    var file := p.stem + HTML;
    assert parts == j + file;
    if p.stem == "index" {
      IndexFile(j);
    } else {
      NotIndexFile(p);
      EndsAppend(j + p.stem, HTML);
      assert parts == (j + p.stem) + HTML;
      assert "/" + (j + p.stem) == Folder(p) + p.stem;
    }
    PathsOf(p);
  }

  lemma PathsOf(p: Page)
    requires ValidPage(p)
    ensures Directory(Folder(p) + ServedName(p)) == Directory("/" + Posix(p)) == Folder(p)
  {
    hide Directory, Posix, EndsWith, Folder;
    PosixSplit(p);
    DirectoryUnique(Folder(p), ServedName(p));
    DirectoryUnique(Folder(p), p.stem + HTML);
  }

  function ServedName(p: Page): string {
    if p.stem == "index" then "" else p.stem
  }

  lemma IndexFile(j: string)
    requires j == "" || j[|j| - 1] == '/'
    ensures EndsWith(j + "index" + HTML, HTML) && CanonicalPath(j + "index" + HTML) == "/" + j
  {
    hide EndsWith, Chop, CanonicalPath;
    EndsAppend(j + "index", HTML);
    assert "index" + HTML == "index.html";
    assert j + "index" + HTML == j + "index.html";
    EndsAppend(j + "index", HTML);
    if j == "" {
      assert j + "index.html" == "index.html";
      IndexAtRoot();
    } else {
      var k := j[..|j| - 1];
      assert j == k + "/" && j + "index.html" == k + "/index.html";
      IndexInFolder(k);
    }
  }

  lemma IndexAtRoot()
    requires EndsWith("index.html", HTML)
    ensures CanonicalPath("index.html") == "/"
  {
  }

  lemma IndexInFolder(k: string)
    requires EndsWith(k + "/index.html", HTML)
    ensures CanonicalPath(k + "/index.html") == "/" + (k + "/")
  {
    hide EndsWith;
    var parts := k + "/index.html";
    EndsAppend(k, "/index.html");
    assert |parts| == |k| + 11;
    assert |"index.html"| == 10;
    assert parts[..|k| + 1] == k + "/";
  }

  function LastSegment(path: string): (r: string)
    ensures '/' !in r && Directory(path) + r == path
  {
    path[|Directory(path)|..]
  }

  lemma NotIndexFile(p: Page)
    requires ValidPage(p) && p.stem != "index"
    ensures Posix(p) != "index.html" && !EndsWith(Posix(p), "/index.html")
  {
    hide Directory, EndsWith, Chop, Join;
    FileOf(p);
    IndexName(Posix(p));
    NameEnds("");
    assert "" + "index.html" == "index.html";
  }

  lemma IndexName(path: string)
    ensures EndsWith(path, "/index.html") ==> LastSegment(path) == "index.html"
  {
    hide Directory;
    if EndsWith(path, "/index.html") {
      EndsIs(path, "/index.html");
      NameEnds(Chop(path, 11) + "/");
      assert path == Chop(path, 11) + "/" + "index.html";
    }
  }

  /** What follows the directory of a page's path is its file name. */
  lemma FileOf(p: Page)
    requires ValidPage(p)
    ensures LastSegment(Posix(p)) == p.stem + HTML
    ensures p.stem + HTML == "index.html" <==> p.stem == "index"
  {
    hide Directory;
    var file := p.stem + HTML;
    assert Posix(p) == Join(p.dirs) + file;
    DirectoryUnique(Join(p.dirs), file);
    StemIsIndex(p.stem);
  }

  lemma StemIsIndex(stem: string)
    ensures stem + HTML == "index.html" <==> stem == "index"
  {
    assert "index.html"[..5] == "index";
    assert (stem + HTML)[..|stem|] == stem;
    assert |stem + HTML| == |stem| + 5;
  }

  lemma NameEnds(d: string)
    requires d == "" || d[|d| - 1] == '/'
    ensures LastSegment(d + "index.html") == "index.html"
  {
    hide Directory;
    DirectoryUnique(d, "index.html");
  }

  /** Two pages are served at one path exactly when they are one file, or one is `index.html` and the other
      the nameless `.html` of the same folder. */
  lemma CanonicalInjective(p: Page, q: Page)
    requires ValidPage(p) && ValidPage(q)
    ensures Canonical(p) == Canonical(q) <==>
            || Posix(p) == Posix(q)
            || (Folder(p) == Folder(q) && {p.stem, q.stem} == {"", "index"})
  {
    CanonicalOf(p);
    CanonicalOf(q);
    if Folder(p) == Folder(q) {
      assert Join(p.dirs) == Folder(p)[1..] == Join(q.dirs);
      StemsApart(Join(p.dirs), p.stem, q.stem);
    } else if Canonical(p) == Canonical(q) || Posix(p) == Posix(q) {
      assert false;
    }
    TwoStems(p.stem, q.stem);
    SameName(Folder(p), ServedName(p), ServedName(q));
  }

  lemma SameName(d: string, a: string, b: string)
    ensures d + a == d + b <==> a == b
  {
    assert (d + a)[|d|..] == a && (d + b)[|d|..] == b;
  }

  lemma StemsApart(j: string, a: string, b: string)
    ensures j + a + HTML == j + b + HTML <==> a == b
  {
    EndsAppend(j + a, HTML);
    EndsAppend(j + b, HTML);
    SameName(j, a, b);
  }

  lemma TwoStems(a: string, b: string)
    ensures {a, b} == {"", "index"} <==> (a == "" && b == "index") || (a == "index" && b == "")
  {
    if {a, b} == {"", "index"} {
      assert a in {"", "index"} && b in {"", "index"};
      assert "" in {a, b} && "index" in {a, b};
    }
  }

  /** Pages with stems are served at paths of their own. */
  lemma CanonicalDistinct(p: Page, q: Page)
    requires ValidPage(p) && ValidPage(q) && p.stem != "" && q.stem != ""
    ensures Canonical(p) == Canonical(q) <==> Posix(p) == Posix(q)
  {
    CanonicalInjective(p, q);
    TwoStems(p.stem, q.stem);
  }

  /** The root page, a folder's page, and a page with a name. */
  lemma CanonicalExamples()
    ensures CanonicalPath("index.html") == "/"
    ensures EndsWith("foo/index.html", HTML) && CanonicalPath("foo/index.html") == "/foo/"
    ensures EndsWith("foo/bar.html", HTML) && CanonicalPath("foo/bar.html") == "/foo/bar"
  {
    hide CanonicalPath, EndsWith, Chop;
    IndexAtRoot();
    FolderPageExample();
    NamedPageExample();
  }

  lemma FolderPageExample()
    ensures EndsWith("foo/index.html", HTML) && CanonicalPath("foo/index.html") == "/foo/"
  {
    var s := "foo/index.html";
    assert s[9..] == HTML && s[3..] == "/index.html" && s[..4] == "foo/";
    assert "/" + "foo/" == "/foo/";
  }

  lemma NamedPageExample()
    ensures EndsWith("foo/bar.html", HTML) && CanonicalPath("foo/bar.html") == "/foo/bar"
  {
    var s := "foo/bar.html";
    assert s[7..] == HTML && s[..7] == "foo/bar";
    EndsChar(s, "/index.html", 0);
    assert s[1] == 'o';
    assert "/" + "foo/bar" == "/foo/bar";
  }

  // ------------------------------------------------------------------ resolving against a page

  /** The address of a path on the site. */
  function Address(site: Uri, path: string): Uri {
    site.(path := path)
  }

  predicate IsSite(site: Uri) {
    site.scheme.Some? && site.authority.Some? && site.query.None? && site.fragment.None?
  }

  /** A reference to something on the same site. */
  predicate OnSite(href: string) {
    !HasScheme(href) && !StartsWith(href, "//")
  }

  lemma ParseOnSite(href: string)
    requires OnSite(href)
    ensures Parse(href) == Uri(None, None, PathOf(href), Query(TailOf(href)), Fragment(TailOf(href)))
  {
  }

  /** Parsing a path put together with a query and fragment. */
  lemma PutTogether(path: string, tail: string)
    requires '#' !in path && '?' !in path && (tail != "" ==> tail[0] == '#' || tail[0] == '?')
    ensures PathOf(path + tail) == path && TailOf(path + tail) == tail
  {
    FirstOfIs(path + tail, {'?', '#'}, |path|);
    assert (path + tail)[..|path|] == path && (path + tail)[|path|..] == tail;
  }

  /** Cutting a path short does not turn a relative reference into an absolute one. */
  lemma PrefixOnSite(href: string, path: string, tail: string)
    requires OnSite(href) && StartsWith(PathOf(href), path)
    requires tail != "" ==> tail[0] == '#' || tail[0] == '?'
    ensures OnSite(path + tail)
  {
    var s := path + tail;
    StartsIs(PathOf(href), path);
    assert forall i | 0 <= i < |path| :: s[i] == path[i] == PathOf(href)[i] == href[i];
    assert |path| < |s| ==> s[|path|] == tail[0];
    SchemeOfPrefix(href, s, |path|);
    SlashesOfPrefix(href, s, |path|);
  }

  lemma SchemeOfPrefix(href: string, s: string, n: nat)
    requires n <= |s| && n <= |href| && (forall i | 0 <= i < n :: s[i] == href[i])
    requires n < |s| ==> s[n] == '#' || s[n] == '?'
    ensures HasScheme(s) ==> HasScheme(href)
  {
    var k := FirstOf(s, {':'});
    if HasScheme(s) {
      assert forall i | 0 <= i <= k :: s[i] != '#' && s[i] != '?';
      FirstOfIs(href, {':'}, k);
    }
  }

  lemma SlashesOfPrefix(href: string, s: string, n: nat)
    requires n <= |s| && n <= |href| && (forall i | 0 <= i < n :: s[i] == href[i])
    requires n < |s| ==> s[n] == '#' || s[n] == '?'
    ensures StartsWith(s, "//") ==> StartsWith(href, "//")
  {
    StartsChar(s, "//", 0);
    StartsChar(s, "//", 1);
  }

  /** Where a path is looked up: at the root, or in the base's folder. */
  function Start(folder: string, path: string): (r: string)
    requires IsDir(folder) && path != ""
    ensures IsDir(r)
  {
    (if path[0] == '/' then "" else folder) + Directory(path)
  }

  /** Only the folder of the base matters to a reference with a path. */
  lemma ResolvedPath(site: Uri, base: string, folder: string, r: Uri)
    requires IsSite(site) && IsDir(folder) && Directory(base) == folder
    requires r.scheme.None? && r.authority.None? && r.path != ""
    ensures Resolve(Address(site, base), r) ==
            Uri(site.scheme, site.authority, RemoveDots(Start(folder, r.path) + LastSegment(r.path), ""),
                r.query, r.fragment)
  {
    hide RemoveDots, Directory, Start, LastSegment;
    WholePath(folder, r.path);
  }

  lemma WholePath(folder: string, path: string)
    requires IsDir(folder) && path != ""
    ensures Start(folder, path) + LastSegment(path) == if path[0] == '/' then path else folder + path
  {
    hide Directory;
    var d, f := Directory(path), LastSegment(path);
    if path[0] == '/' {
      assert Start(folder, path) == "" + d == d;
    } else {
      Assoc(folder, d, f);
    }
  }

  /** A reference that names a scheme, a host or a path, and is left as it is, resolves the same against
      the page's new address as against its old one; this is every reference `clean_href` does not touch
      except bare queries and fragments, which stay on the page. */
  lemma UntouchedKeepsResolving(site: Uri, p: Page, href: string)
    requires IsSite(site) && ValidPage(p)
    requires CleanHref(href) == href
    ensures var before := Resolve(Address(site, "/" + Posix(p)), Parse(href));
            var rewritten := Resolve(Address(site, Canonical(p)), Parse(CleanHref(href)));
            if OnSite(href) && PathOf(href) == ""
            then rewritten == before.(path := Canonical(p)) && before.path == "/" + Posix(p)
            else rewritten == before
  {
    hide RemoveDots, CanonicalPath;
    CanonicalOf(p);
    if OnSite(href) && PathOf(href) != "" {
      ParseOnSite(href);
      ResolvedPath(site, "/" + Posix(p), Folder(p), Parse(href));
      ResolvedPath(site, Canonical(p), Folder(p), Parse(href));
    }
  }

  /** A letter that is `[a-z]` only when case is ignored: the dotted and the dotless i, the long s, the kelvin sign. */
  predicate OddLetter(c: char) {
    c in {'\U{0130}', '\U{0131}', '\U{017F}', '\U{212A}'}
  }

  /** What opens the reference up to a colon would be a scheme but for an odd letter in it. */
  predicate OddScheme(href: string) {
    exists k | 0 < k < |href| && href[k] == ':' ::
      && (AsciiLetter(href[0]) || OddLetter(href[0]))
      && (forall i | 0 <= i < k :: SchemeChar(href[i]) || OddLetter(href[i]))
      && (exists i | 0 <= i < k :: OddLetter(href[i]))
  }

  /** What is taken for absolute: references to other sites, bare fragments, and, beyond what RFC 3986 would have,
      a run with an odd letter before a colon. */
  lemma AbsoluteExactly(href: string)
    ensures Absolute(href) <==> !OnSite(href) || StartsWith(href, "#") || OddScheme(href)
    ensures OnSite(href) && ':' !in href && !StartsWith(href, "#") ==> !Absolute(href)
  {
    hide StartsWith;
    var k := FirstOf(href, {':'});
    if OddScheme(href) {
      var j :| 0 < j < |href| && href[j] == ':' && (AsciiLetter(href[0]) || OddLetter(href[0]))
        && (forall i | 0 <= i < j :: SchemeChar(href[i]) || OddLetter(href[i]));
      assert !SchemeChar(':') && !OddLetter(':');
      assert k == j;
    }
    if Absolute(href) && OnSite(href) && !StartsWith(href, "#") {
      assert 0 < k < |href| && href[k] == ':';
      assert !AsciiLetter(href[0]) || exists i | 0 <= i < k :: !SchemeChar(href[i]);
      assert exists i | 0 <= i < k :: OddLetter(href[i]);
    }
  }

  lemma FragmentHasNoPath(href: string)
    ensures StartsWith(href, "#") ==> PathOf(href) == ""
  {
    StartsChar(href, "#", 0);
  }

  /** References to other sites are never touched. */
  lemma OtherSitesUntouched(href: string)
    requires !OnSite(href)
    ensures CleanHref(href) == href
  {
    if HasScheme(href) {
      var k := FirstOf(href, {':'});
      assert forall i | 0 <= i < k :: SchemeChar(href[i]) ==> FoldedSchemeChar(href[i]);
    }
  }

  /** What the rewriting does to every other reference, by the way it splits: a name ending in `.html` loses that
      ending, one ending in `index.html` loses both, nothing else changes. */
  lemma CleanedExactly(href: string, base: string, tail: string, rest: string)
    requires OnSite(href) && !StartsWith(href, "#") && !OddScheme(href)
    ensures SuffixMatch(href, base, tail, rest) && !EndsWith(base, "index") ==> CleanHref(href) == base + tail
    ensures base != "" && SuffixMatch(href, base + "index", tail, rest) ==> CleanHref(href) == base + tail
    ensures SuffixMatch(href, "index", tail, rest) ==> CleanHref(href) == "./" + tail
    ensures (forall b, t, r :: !SuffixMatch(href, b, t, r)) ==> CleanHref(href) == href
  {
    hide Absolute, OddScheme, OnSite, StartsWith, EndsWith, Chop, HtmlSuffix, SuffixMatch;
    AbsoluteExactly(href);
    RestIsNewline(href, base, tail, rest);
    RestIsNewline(href, base + "index", tail, rest);
    RestIsNewline(href, "index", tail, rest);
    HtmlSuffixExact(href, base, tail);
    HtmlSuffixExact(href, base + "index", tail);
    HtmlSuffixExact(href, "index", tail);
    EndsAppend(base, "index");
    EndsAppend("", "index");
    assert "" + "index" == "index";
    if HtmlSuffix(href).Some? {
      FoundMatches(href);
    }
  }

  lemma RestIsNewline(href: string, base: string, tail: string, rest: string)
    ensures SuffixMatch(href, base, tail, rest) ==> rest == "" || rest == "\n"
  {
  }

  /** The three rewritings `clean_href` documents, and one reference of each kind it leaves alone. */
  lemma CleanHrefExamples()
    ensures CleanHref("foo/bar.html") == "foo/bar"
    ensures CleanHref("../index.html#anc") == "../#anc"
    ensures CleanHref("index.html") == "./"
    ensures CleanHref("https://latticedb.org/index.html") == "https://latticedb.org/index.html"
    ensures CleanHref("//latticedb.org/a.html") == "//latticedb.org/a.html"
    ensures CleanHref("#anc.html") == "#anc.html"
    ensures CleanHref("a.css") == "a.css"
  {
    hide CleanHref, HtmlSuffix, SuffixMatch, EndsWith, StartsWith, OnSite;
    BarExample();
    AnchorExample();
    IndexExample();
    ElsewhereExample();
    HostExample();
    FragmentExample();
    NoHtml("a.css");
  }

  lemma BarExample()
    ensures CleanHref("foo/bar.html") == "foo/bar"
  {
    hide CleanHref;
    assert "foo/bar.html" == "foo/bar" + HTML + "" + "";
    EndsChar("foo/bar", "index", 4);
    Shortened("foo/bar.html", "foo/bar", "");
  }

  lemma AnchorExample()
    ensures CleanHref("../index.html#anc") == "../#anc"
  {
    hide CleanHref, EndsWith;
    assert "../index.html#anc" == ("../" + "index") + HTML + "#anc" + "";
    Shortened("../index.html#anc", "../", "#anc");
    assert "../" + "#anc" == "../#anc";
  }

  lemma IndexExample()
    ensures CleanHref("index.html") == "./"
  {
    hide CleanHref, EndsWith;
    assert "index.html" == "index" + HTML + "" + "";
    Shortened("index.html", "", "");
    assert "./" + "" == "./";
  }

  /** A reference that shows by its first character and the lack of a colon that it is relative. */
  lemma Shortened(href: string, base: string, tail: string)
    requires ':' !in href && href != "" && href[0] != '/' && href[0] != '#'
    ensures SuffixMatch(href, base, tail, "") && !EndsWith(base, "index") ==> CleanHref(href) == base + tail
    ensures base != "" && SuffixMatch(href, base + "index", tail, "") ==> CleanHref(href) == base + tail
    ensures SuffixMatch(href, "index", tail, "") ==> CleanHref(href) == "./" + tail
  {
    hide CleanHref, SuffixMatch, EndsWith, StartsWith;
    StartsChar(href, "//", 0);
    StartsChar(href, "#", 0);
    NoColon(href);
    CleanedExactly(href, base, tail, "");
  }

  lemma ElsewhereExample()
    ensures CleanHref("https://latticedb.org/index.html") == "https://latticedb.org/index.html"
  {
    hide CleanHref, FirstOf;
    var s := "https://latticedb.org/index.html";
    assert s[..5] == "https" && s[5] == ':';
    FirstOfIs(s, {':'}, 5);
    OtherSitesUntouched(s);
  }

  lemma HostExample()
    ensures CleanHref("//latticedb.org/a.html") == "//latticedb.org/a.html"
  {
    hide CleanHref;
    var s := "//latticedb.org/a.html";
    assert s[..2] == "//";
    OtherSitesUntouched(s);
  }

  lemma FragmentExample()
    ensures CleanHref("#anc.html") == "#anc.html"
  {
    hide HtmlSuffix;
    var s := "#anc.html";
    assert s[..1] == "#";
    AbsoluteUntouched(s) by { AbsoluteExactly(s); }
  }

  lemma NoHtml(href: string)
    requires 'h' !in href
    ensures CleanHref(href) == href
  {
    hide Absolute, PathOf, TailOf;
    PathAndTail(href);
    EndsChar(PathOf(href), HTML, 1);
    EndsChar(PathOf(href), HTML + "\n", 1);
  }

  lemma NoColon(href: string)
    requires ':' !in href
    ensures !OddScheme(href) && !HasScheme(href)
  {
  }

  // ------------------------------------------------------------------ links to pages

  /** What a link's path must look like to survive the rewriting: a name that does not merely end in
      `index`, is not a dot segment, and, if empty, is written with a directory or on a folder's own page. */
  predicate StemKept(p: Page, path: string) {
    var file := LastSegment(path);
    |file| >= 5 &&
    var stem := Chop(file, 5);
    || stem == "index"
    || (stem != "" && stem != "." && stem != ".." && !EndsWith(stem, "index"))
    || (stem == "" && ('/' in path || p.stem == "" || p.stem == "index"))
  }

  predicate Kept(p: Page, href: string) {
    PathOf(href) == "" || (!OddScheme(href) && '\n' !in TailOf(href) && StemKept(p, PathOf(href)))
  }

  /** A path that resolves to a page's file ends in that file's name, and what precedes it resolves to its folder. */
  lemma TargetShape(start: string, f: string, t: Page)
    requires IsDir(start) && '/' !in f && ValidPage(t)
    requires RemoveDots(start + f, "") == "/" + Posix(t)
    ensures f == t.stem + HTML && RemoveDots(start, "") == Folder(t)
  {
    hide RemoveDots, EndsWith, Posix, Folder;
    RemoveDotsLast(start, f);
    PosixSplit(t);
    if f != "." && f != ".." {
      var d := RemoveDots(start, "");
      EndsIs(d, "/");
      Split(d, f, Folder(t), t.stem + HTML);
    }
  }

  lemma PosixSplit(t: Page)
    requires ValidPage(t)
    ensures "/" + Posix(t) == Folder(t) + (t.stem + HTML) && '/' !in t.stem + HTML
    ensures !EndsWith("/" + Posix(t), "/")
  {
    hide Join;
    Assoc(Join(t.dirs), t.stem, HTML);
    Assoc("/", Join(t.dirs), t.stem + HTML);
    Assoc("/" + Join(t.dirs), t.stem, HTML);
    LastChar(Folder(t) + t.stem + HTML);
  }

  /** The folder of a page is free of dot segments. */
  lemma {:induction false} FolderIsPlain(dirs: seq<string>, out: string)
    requires forall d | d in dirs :: FileName(d)
    ensures RemoveDots("/" + Join(dirs), out) == out + "/" + Join(dirs)
    decreases |dirs|
  {
    hide RemoveDots;
    if dirs == [] {
      Slash(out);
      assert "/" + "" == "/" && out + "/" + "" == out + "/";
    } else {
      var d, rest := dirs[0], Join(dirs[1..]);
      assert d in dirs;
      assert "/" + Join(dirs) == "/" + d + ("/" + rest);
      FolderStep(d, "/" + rest, out);
      FolderIsPlain(dirs[1..], out + ("/" + d));
      assert out + ("/" + d) + "/" + rest == out + "/" + Join(dirs);
    }
  }

  lemma FolderStep(d: string, rest: string, out: string)
    requires FileName(d) && rest != "" && rest[0] == '/'
    ensures RemoveDots("/" + d + rest, out) == RemoveDots(rest, out + ("/" + d))
  {
    hide StartsWith, FirstOf;
    var input := "/" + d + rest;
    NotDots(input);
    NotDotSegment(d, rest);
    assert input[1..] == d + rest;
    FirstOfIs(d + rest, {'/'}, |d|);
    assert FirstSegment(input) == |d| + 1;
    assert input[..|d| + 1] == "/" + d && input[|d| + 1..] == rest;
  }

  lemma NotDotSegment(d: string, rest: string)
    requires FileName(d) && rest != "" && rest[0] == '/'
    ensures var input := "/" + d + rest;
            !StartsWith(input, "/./") && !StartsWith(input, "/../") && input != "/." && input != "/.."
  {
    var input := "/" + d + rest;
    assert input[1] == d[0];
    assert |d| == 1 ==> d == [d[0]] && input[2] == '/';
    assert |d| >= 2 ==> input[2] == d[1];
    assert |d| == 2 ==> d == [d[0], d[1]] && input[3] == '/';
    assert |d| >= 3 ==> input[3] == d[2];
    assert d == "." <==> |d| == 1 && d[0] == '.';
    assert d == ".." <==> |d| == 2 && d[0] == '.' && d[1] == '.';
    StartsChar(input, "/./", 1);
    StartsChar(input, "/./", 2);
    StartsChar(input, "/../", 1);
    StartsChar(input, "/../", 2);
    StartsChar(input, "/../", 3);
  }

  /** What `clean_href` makes of a name. */
  function NewName(stem: string): string {
    if EndsWith(stem, "index") then Chop(stem, 5) else stem
  }

  function NewPath(dir: string, stem: string): string {
    if dir == "" && stem == "index" then "./" else dir + NewName(stem)
  }

  lemma EndsInStem(dir: string, stem: string)
    requires (dir == "" || dir[|dir| - 1] == '/') && '/' !in stem
    ensures EndsWith(dir + stem, "index") <==> EndsWith(stem, "index")
    ensures EndsWith(stem, "index") ==> Chop(dir + stem, 5) == dir + Chop(stem, 5)
    ensures EndsWith(stem, "index") ==> (|dir + stem| == 5 <==> dir == "" && stem == "index")
  {
    hide EndsWith, Chop;
    TooShort(dir, stem);
    if EndsWith(stem, "index") {
      EndsIs(stem, "index");
      var short := Chop(stem, 5);
      Assoc(dir, short, "index");
      EndsAppend(dir + short, "index");
      IndexEnding(stem);
    }
  }

  lemma TooShort(dir: string, stem: string)
    requires (dir == "" || dir[|dir| - 1] == '/') && '/' !in stem
    ensures EndsWith(dir + stem, "index") ==> EndsWith(stem, "index")
  {
    var base := dir + stem;
    if |stem| >= 5 {
      assert base[|base| - 5..] == stem[|stem| - 5..];
    } else if dir != "" && |base| >= 5 {
      EndsChar(base, "index", 4 - |stem|);
      assert base[|base| - 1 - |stem|] == '/';
    }
  }

  /** What the rewriting does to a reference whose path is `dir`, a name and `.html`. */
  lemma Rewritten(href: string, dir: string, stem: string)
    requires !Absolute(href) && '\n' !in TailOf(href)
    requires (dir == "" || dir[|dir| - 1] == '/') && '/' !in stem && PathOf(href) == dir + (stem + HTML)
    ensures CleanHref(href) == NewPath(dir, stem) + TailOf(href)
    ensures TailOf(CleanHref(href)) == TailOf(href)
  {
    hide EndsWith, Chop, PathOf, TailOf, HtmlSuffix, Absolute;
    PathAndTail(href);
    var base, tail := dir + stem, TailOf(href);
    assert PathOf(href) == base + HTML;
    assert href == base + HTML + tail + "";
    assert SuffixMatch(href, base, tail, "");
    HtmlSuffixExact(href, base, tail);
    EndsInStem(dir, stem);
    NewNameInStem(stem);
    PutTogether(NewPath(dir, stem), tail);
    assert HtmlSuffix(href) == Some((base, tail));
    if EndsWith(stem, "index") {
      IndexEnding(stem);
      assert CleanHref(href) == (if |base| == 5 then "./" else Chop(base, 5)) + tail;
      if dir == "" && stem == "index" {
        assert |base| == 5;
      } else {
        assert |base| != 5;
      }
    } else {
      assert stem != "index" by { IndexEnding(stem); }
      assert CleanHref(href) == base + tail;
    }
  }

  /** What the rewriting never does: make the reference leave the site, or add to its query and fragment. */
  lemma CleanOnSite(href: string)
    requires OnSite(href)
    ensures OnSite(CleanHref(href))
    ensures CleanHref(href) == href || (HtmlSuffix(href).Some? && TailOf(CleanHref(href)) == HtmlSuffix(href).value.1)
  {
    hide EndsWith, Chop, PathOf, TailOf, HtmlSuffix, Absolute, OnSite;
    if CleanHref(href) != href {
      var (base, tail) := HtmlSuffix(href).value;
      FoundMatches(href);
      BaseIsPrefix(href, base, tail);
      if EndsWith(base, "index") && |base| == 5 {
        DotOnSite(tail);
        PutTogether("./", tail);
      } else if EndsWith(base, "index") {
        EndsIs(base, "index");
        StartsShorter(PathOf(href), base, 5);
        PrefixOnSite(href, Chop(base, 5), tail);
        PutTogether(Chop(base, 5), tail);
      } else {
        PrefixOnSite(href, base, tail);
        PutTogether(base, tail);
      }
    }
  }

  lemma StartsShorter(s: string, p: string, n: nat)
    requires StartsWith(s, p) && n <= |p|
    ensures StartsWith(s, Chop(p, n))
  {
    StartsIs(s, p);
  }

  lemma BaseIsPrefix(href: string, base: string, tail: string)
    requires SuffixMatch(href, base, tail, "") || SuffixMatch(href, base, tail, "\n")
    ensures StartsWith(PathOf(href), base)
  {
    hide PathOf, TailOf;
    var rest := if SuffixMatch(href, base, tail, "") then "" else "\n";
    if tail == "" {
      PutTogether(base + HTML + rest, "");
      assert href == (base + HTML + rest) + "";
    } else {
      PutTogether(base + HTML, tail + rest);
      assert href == (base + HTML) + (tail + rest);
    }
  }

  lemma DotOnSite(tail: string)
    ensures OnSite("./" + tail)
  {
    var s := "./" + tail;
    assert s[0] == '.';
    StartsChar(s, "//", 0);
  }

  /** With a newline after its path, a reference keeps its path or loses that newline. */
  lemma NewlineSpoils(href: string)
    requires OnSite(href) && '\n' in TailOf(href)
    ensures CleanHref(href) == href || TailOf(CleanHref(href)) != TailOf(href)
  {
    hide EndsWith, Chop, PathOf, TailOf, Absolute, OnSite;
    CleanOnSite(href);
  }

  lemma TailsApart(t: string, u: string)
    requires (t == "" || t[0] == '?' || t[0] == '#') && (u == "" || u[0] == '?' || u[0] == '#')
    ensures t == u <==> Query(t) == Query(u) && Fragment(t) == Fragment(u)
  {
    RecomposeTail(t);
    RecomposeTail(u);
  }

  /** The new name resolves to where the page is served, from any folder, exactly for these names. */
  lemma NewTarget(start: string, stem: string)
    requires IsDir(start) && '/' !in stem
    ensures RemoveDots(start + NewName(stem), "") == RemoveDots(start, "") + (if stem == "index" then "" else stem) <==>
            stem == "index" || stem == "" || (stem != "." && stem != ".." && !EndsWith(stem, "index"))
    ensures RemoveDots(start + "./", "") == RemoveDots(start, "")
  {
    hide RemoveDots, EndsWith;
    var d, s := RemoveDots(start, ""), NewName(stem);
    RemoveDotsLast(start, s);
    assert start + "" == start && d + "" == d;
    IndexEnding(stem);
    if stem == "." || stem == ".." {
      LastChar(d + stem);
    } else if EndsWith(stem, "index") && stem != "index" {
      assert |d + s| < |d + stem|;
      LastChar(d + stem);
    }
  }

  lemma IndexEnding(stem: string)
    ensures EndsWith(stem, "index") ==> |stem| >= 5 && NewName(stem) == stem[..|stem| - 5] && stem[|stem| - 1] == 'x'
    ensures EndsWith(stem, "index") && |stem| == 5 ==> stem == "index"
    ensures EndsWith("index", "index")
    ensures stem == "." || stem == ".." ==> !EndsWith(stem, "index")
  {
    EndsChar(stem, "index", 4);
  }

  lemma LastChar(s: string)
    requires s != "" && s[|s| - 1] != '/'
    ensures !EndsWith(s, "/")
  {
    EndsChar(s, "/", 0);
  }

  // ------------------------------------------------------------------ the main result

  /** From page `p`, the reference leads to the built file of page `t`. */
  predicate LeadsTo(site: Uri, p: Page, href: string, t: Page) {
    Resolve(Address(site, "/" + Posix(p)), Parse(href)).path == "/" + Posix(t)
  }

  /** From the address `p` is served at, the rewritten reference leads to the address `t` is served at,
      with the query and fragment it had. */
  predicate StillLeadsTo(site: Uri, p: Page, href: string, t: Page) {
    Resolve(Address(site, Canonical(p)), Parse(CleanHref(href)))
      == Resolve(Address(site, "/" + Posix(p)), Parse(href)).(path := Canonical(t))
  }

  /** A link to a page keeps its meaning exactly when its path is one `clean_href` gets right. */
  lemma LinksKeepMeaning(site: Uri, p: Page, href: string, t: Page)
    requires IsSite(site) && ValidPage(p) && ValidPage(t) && OnSite(href)
    requires LeadsTo(site, p, href, t)
    ensures StillLeadsTo(site, p, href, t) <==> Kept(p, href)
  {
    hide RemoveDots, CanonicalPath, CleanHref, Absolute, OddScheme, HtmlSuffix, StemKept, PathOf, TailOf, OnSite;
    ParseOnSite(href);
    PathAndTail(href);
    AbsoluteExactly(href);
    FragmentHasNoPath(href);
    if PathOf(href) == "" {
      EmptyPathKept(site, p, href, t);
    } else if Absolute(href) || '\n' in TailOf(href) {
      if '\n' in TailOf(href) { NewlineSpoils(href); } else { AbsoluteUntouched(href); }
      if CleanHref(href) == href { UntouchedIsLost(site, p, href, t); } else { TailIsLost(site, p, href, t); }
    } else {
      PathDecides(site, p, href, t);
    }
  }

  lemma AbsoluteUntouched(href: string)
    requires Absolute(href)
    ensures CleanHref(href) == href
  {
  }

  lemma EmptyPathKept(site: Uri, p: Page, href: string, t: Page)
    requires IsSite(site) && ValidPage(p) && ValidPage(t) && OnSite(href) && PathOf(href) == ""
    requires LeadsTo(site, p, href, t)
    ensures StillLeadsTo(site, p, href, t)
  {
    hide RemoveDots, CanonicalPath, PathOf, TailOf, OnSite;
    ParseOnSite(href);
    assert Posix(p) == ("/" + Posix(p))[1..] == ("/" + Posix(t))[1..] == Posix(t);
    EndsChar("", HTML, 0);
    EndsChar("", HTML + "\n", 0);
    assert CleanHref(href) == href;
  }

  lemma UntouchedIsLost(site: Uri, p: Page, href: string, t: Page)
    requires IsSite(site) && ValidPage(p) && ValidPage(t) && OnSite(href) && PathOf(href) != ""
    requires LeadsTo(site, p, href, t) && CleanHref(href) == href
    ensures !StillLeadsTo(site, p, href, t)
  {
    hide RemoveDots, CanonicalPath, CleanHref, Absolute, HtmlSuffix, PathOf, TailOf, OnSite;
    UntouchedKeepsResolving(site, p, href);
    CanonicalOf(t);
    assert |Canonical(t)| < |"/" + Posix(t)|;
  }

  lemma TailIsLost(site: Uri, p: Page, href: string, t: Page)
    requires IsSite(site) && ValidPage(p) && ValidPage(t) && OnSite(href)
    requires TailOf(CleanHref(href)) != TailOf(href)
    ensures !StillLeadsTo(site, p, href, t)
  {
    hide RemoveDots, CanonicalPath, CleanHref, Absolute, HtmlSuffix, PathOf, TailOf, OnSite, Query, Fragment;
    CleanOnSite(href);
    ParseOnSite(href);
    ParseOnSite(CleanHref(href));
    PathAndTail(href);
    PathAndTail(CleanHref(href));
    TailsApart(TailOf(href), TailOf(CleanHref(href)));
  }

  /** The case that is rewritten: whether the link survives depends on the name alone, except that a
      reference that becomes empty stays on its own page. */
  lemma PathDecides(site: Uri, p: Page, href: string, t: Page)
    requires IsSite(site) && ValidPage(p) && ValidPage(t) && OnSite(href) && PathOf(href) != ""
    requires LeadsTo(site, p, href, t) && !Absolute(href) && '\n' !in TailOf(href)
    ensures StillLeadsTo(site, p, href, t) <==> StemKept(p, PathOf(href))
  {
    hide RemoveDots, CanonicalPath, CleanHref, Absolute, HtmlSuffix, StemKept, PathOf, TailOf, OnSite, Query, Fragment,
      EndsWith, Directory, Join, Resolve, Parse, StillLeadsTo, LeadsTo, Start, NewPath, NewName, IsDir, Posix, Folder;
    var path, tail := PathOf(href), TailOf(href);
    var dir, start := Directory(path), Start(Folder(p), path);
    PathAndTail(href);
    CanonicalOf(t);
    OldPath(site, p, href, t);
    Rewritten(href, dir, t.stem);
    CleanOnSite(href);
    StillByPath(site, p, href, t);
    NewTarget(start, t.stem);
    KeptByStem(p, path, dir, t.stem);
    NewNameEmpty(t.stem);
    if dir == "" && t.stem == "" {
      assert NewPath(dir, t.stem) + tail == tail by { BareName(); }
      StaysOnPage(site, p, path, tail, t);
    } else {
      NewPathResolved(site, p, path, dir, t.stem, tail);
    }
  }

  /** The old reference's path is a directory that resolves to the folder of `t`, and the name of `t`. */
  lemma OldPath(site: Uri, p: Page, href: string, t: Page)
    requires IsSite(site) && ValidPage(p) && ValidPage(t) && OnSite(href) && PathOf(href) != ""
    requires LeadsTo(site, p, href, t)
    ensures PathOf(href) == Directory(PathOf(href)) + (t.stem + HTML)
    ensures RemoveDots(Start(Folder(p), PathOf(href)), "") == Folder(t)
  {
    hide RemoveDots, CanonicalPath, PathOf, TailOf, OnSite, Query, Fragment, Directory, Join;
    ParseOnSite(href);
    CanonicalOf(p);
    ResolvedPath(site, "/" + Posix(p), Folder(p), Parse(href));
    TargetShape(Start(Folder(p), PathOf(href)), LastSegment(PathOf(href)), t);
  }

  lemma NewNameEmpty(stem: string)
    ensures NewName(stem) == "" <==> stem == "" || stem == "index"
  {
    IndexEnding(stem);
  }

  /** Only the path is in question: site, query and fragment are the same. */
  lemma StillByPath(site: Uri, p: Page, href: string, t: Page)
    requires IsSite(site) && ValidPage(p) && OnSite(href) && PathOf(href) != ""
    requires OnSite(CleanHref(href)) && TailOf(CleanHref(href)) == TailOf(href)
    ensures StillLeadsTo(site, p, href, t) <==>
            Resolve(Address(site, Canonical(p)), Parse(CleanHref(href))).path == Canonical(t)
  {
    hide RemoveDots, CanonicalPath, CleanHref, Absolute, HtmlSuffix, PathOf, TailOf, OnSite, Query, Fragment, Directory;
    ParseOnSite(href);
    ParseOnSite(CleanHref(href));
  }

  lemma BareName()
    ensures NewPath("", "") == ""
  {
  }

  /** A reference that loses its whole path resolves to the page it is on. */
  lemma StaysOnPage(site: Uri, p: Page, path: string, tail: string, t: Page)
    requires IsSite(site) && ValidPage(p) && ValidPage(t) && path == HTML && t.stem == ""
    requires RemoveDots(Start(Folder(p), path), "") == Folder(t)
    requires OnSite(tail) && (tail != "" ==> tail[0] == '#' || tail[0] == '?')
    ensures Resolve(Address(site, Canonical(p)), Parse(tail)).path == Canonical(t)
       <==> p.stem == "" || p.stem == "index"
  {
    hide RemoveDots, CanonicalPath, PathOf, TailOf, OnSite, Query, Fragment, Directory, Join;
    PutTogether("", tail);
    assert "" + tail == tail;
    ParseOnSite(tail);
    FolderAgain(p, t);
  }

  lemma FolderAgain(p: Page, t: Page)
    requires ValidPage(p) && ValidPage(t) && t.stem == "" && RemoveDots(Start(Folder(p), HTML), "") == Folder(t)
    ensures Canonical(p) == Canonical(t) <==> p.stem == "" || p.stem == "index"
  {
    hide RemoveDots, CanonicalPath, Directory, Join, Folder, Canonical, ValidPage, Start, EndsWith;
    CanonicalOf(p);
    CanonicalOf(t);
    BareFileStart(p);
    FolderStays(p);
    SameName(Folder(p), ServedName(p), ServedName(t));
  }

  lemma BareFileStart(p: Page)
    ensures Start(Folder(p), HTML) == Folder(p)
  {
    hide Directory, Folder, Join;
    assert Start(Folder(p), HTML) == Folder(p) by {
      DirectoryUnique("", HTML);
      assert "" + HTML == HTML;
      assert Folder(p) + "" == Folder(p);
    }
  }

  lemma FolderStays(p: Page)
    requires ValidPage(p)
    ensures RemoveDots(Folder(p), "") == Folder(p)
  {
    hide RemoveDots, Join;
    FolderIsPlain(p.dirs, "");
    assert "" + "/" + Join(p.dirs) == Folder(p);
  }

  lemma NewPathResolved(site: Uri, p: Page, path: string, dir: string, stem: string, tail: string)
    requires IsSite(site) && ValidPage(p)
    requires (dir == "" || dir[|dir| - 1] == '/') && '/' !in stem
    requires path == dir + (stem + HTML) && (dir != "" || stem != "")
    requires OnSite(NewPath(dir, stem) + tail) && (tail != "" ==> tail[0] == '#' || tail[0] == '?')
    requires '#' !in path && '?' !in path
    ensures Resolve(Address(site, Canonical(p)), Parse(NewPath(dir, stem) + tail)).path ==
            RemoveDots(Start(Folder(p), path) + (if dir == "" && stem == "index" then "./" else NewName(stem)), "")
  {
    hide RemoveDots, CanonicalPath, PathOf, TailOf, OnSite, Query, Fragment, EndsWith, Chop, Directory, NewName,
      NewPath, Start, LastSegment, Folder;
    var rewritten := NewPath(dir, stem);
    NewPathPlain(dir, stem);
    PutTogether(rewritten, tail);
    ParseOnSite(rewritten + tail);
    CanonicalOf(p);
    WhereNewPathStarts(p, path, dir, stem);
    ResolvedPath(site, Canonical(p), Folder(p), Parse(rewritten + tail));
  }

  lemma NewPathPlain(dir: string, stem: string)
    requires '/' !in stem
    ensures '#' in NewPath(dir, stem) ==> '#' in dir + (stem + HTML)
    ensures '?' in NewPath(dir, stem) ==> '?' in dir + (stem + HTML)
  {
    hide NewName;
    NewNameInStem(stem);
  }

  lemma WhereNewPathStarts(p: Page, path: string, dir: string, stem: string)
    requires (dir == "" || dir[|dir| - 1] == '/') && '/' !in stem
    requires path == dir + (stem + HTML) && (dir != "" || stem != "")
    ensures var rewritten := NewPath(dir, stem);
            rewritten != "" && Start(Folder(p), rewritten) + LastSegment(rewritten)
              == Start(Folder(p), path) + (if dir == "" && stem == "index" then "./" else NewName(stem))
  {
    hide Directory, NewName, Folder;
    DirectoryUnique(dir, stem + HTML);
    if dir == "" && stem == "index" {
      assert path == stem + HTML;
      assert path[0] == stem[0];
      assert Start(Folder(p), path) == Folder(p) + "" == Folder(p);
      WholePath(Folder(p), "./");
    } else {
      NewNameInStem(stem);
      DirectoryUnique(dir, NewName(stem));
      SameStart(p, path, NewPath(dir, stem), dir, stem);
    }
  }

  lemma NewNameInStem(stem: string)
    requires '/' !in stem
    ensures '/' !in NewName(stem) && StartsWith(stem, NewName(stem))
    ensures '#' in NewName(stem) ==> '#' in stem
    ensures '?' in NewName(stem) ==> '?' in stem
    ensures stem != "" && stem != "index" ==> NewName(stem) != ""
  {
    NewNameEmpty(stem);
  }

  lemma SameStart(p: Page, path: string, rewritten: string, dir: string, stem: string)
    requires path == dir + (stem + HTML) && rewritten == dir + NewName(stem) && '/' !in stem
    requires Directory(path) == Directory(rewritten) == dir && (dir != "" || (stem != "" && stem != "index"))
    ensures rewritten != "" && Start(Folder(p), rewritten) == Start(Folder(p), path)
    ensures LastSegment(rewritten) == NewName(stem)
  {
    hide Directory, NewName;
    NewNameInStem(stem);
    StartsIs(stem, NewName(stem));
    if dir != "" {
      assert path[0] == dir[0] == rewritten[0];
    } else {
      assert path[0] == stem[0] == NewName(stem)[0] == rewritten[0];
    }
  }

  lemma KeptByStem(p: Page, path: string, dir: string, stem: string)
    requires (dir == "" || dir[|dir| - 1] == '/') && '/' !in stem && path == dir + (stem + HTML)
    ensures StemKept(p, path) <==>
            || stem == "index"
            || (stem != "" && stem != "." && stem != ".." && !EndsWith(stem, "index"))
            || (stem == "" && (dir != "" || p.stem == "" || p.stem == "index"))
  {
    hide Directory, EndsWith;
    DirectoryUnique(dir, stem + HTML);
    EndsAppend(stem, HTML);
    assert LastSegment(path) == stem + HTML;
    assert Chop(stem + HTML, 5) == stem;
    assert '/' in path <==> dir != "" by {
      if dir != "" { assert path[|dir| - 1] == '/'; }
    }
  }

  // ------------------------------------------------------------------ what the documentation promises and does not get

  /** A bare file name leads from any page to the file of that name beside it. */
  lemma SiblingReached(site: Uri, p: Page, stem: string)
    requires IsSite(site) && ValidPage(p) && stem != "" && forall c | c in stem :: AsciiLetter(c)
    ensures OnSite(stem + HTML) && PathOf(stem + HTML) == stem + HTML
    ensures LeadsTo(site, p, stem + HTML, Page(p.dirs, stem))
  {
    hide RemoveDots, Directory, Join, PathOf, TailOf, OnSite, CanonicalPath;
    var file := stem + HTML;
    BareNameOnSite(stem);
    PutTogether(file, "");
    assert file + "" == file;
    ParseOnSite(file);
    ResolvedSibling(site, p, file);
    PosixSplit(Page(p.dirs, stem));
  }

  lemma BareNameOnSite(stem: string)
    requires forall c | c in stem :: AsciiLetter(c)
    ensures OnSite(stem + HTML) && '/' !in stem + HTML
    ensures '#' !in stem + HTML && '?' !in stem + HTML && ':' !in stem + HTML
  {
    var file := stem + HTML;
    assert forall c | c in HTML :: AsciiLetter(c) || c == '.';
    forall i | 0 <= i < |file|
      ensures AsciiLetter(file[i]) || file[i] == '.'
    {
      assert if i < |stem| then file[i] == stem[i] && stem[i] in stem else file[i] == HTML[i - |stem|];
    }
    FirstOfIs(file, {':'}, |file|);
    StartsChar(file, "//", 0);
  }

  lemma ResolvedSibling(site: Uri, p: Page, file: string)
    requires IsSite(site) && ValidPage(p) && file != "" && file != "." && file != ".." && '/' !in file
    requires Parse(file) == Uri(None, None, file, Query(""), Fragment(""))
    ensures Resolve(Address(site, "/" + Posix(p)), Parse(file)).path == Folder(p) + file
  {
    hide RemoveDots, Directory, Join, CanonicalPath, Parse;
    CanonicalOf(p);
    ResolvedPath(site, "/" + Posix(p), Folder(p), Parse(file));
    WholePath(Folder(p), file);
    RemoveDotsLast(Folder(p), file);
    FolderIsPlain(p.dirs, "");
    assert "" + "/" + Join(p.dirs) == Folder(p);
  }

  /** A name that goes on to end in `index`, linked from the page beside it, is cut short and leads elsewhere:
      `myindex.html` becomes `my`. */
  lemma IndexSuffixIsLost(site: Uri, p: Page, start: string)
    requires IsSite(site) && ValidPage(p) && start != "" && forall c | c in start :: AsciiLetter(c)
    ensures var stem := start + "index";
            && LeadsTo(site, p, stem + HTML, Page(p.dirs, stem))
            && !StillLeadsTo(site, p, stem + HTML, Page(p.dirs, stem))
  {
    hide RemoveDots, Directory, Join, PathOf, OnSite, CanonicalPath, StillLeadsTo, LeadsTo, CleanHref, Absolute,
      StemKept, EndsWith;
    var stem := start + "index";
    assert forall c | c in "index" :: AsciiLetter(c);
    SiblingReached(site, p, stem);
    LinksKeepMeaning(site, p, stem + HTML, Page(p.dirs, stem));
    assert "" + (stem + HTML) == stem + HTML;
    BareNameOnSite(stem);
    KeptByStem(p, stem + HTML, "", stem);
    EndsAppend(start, "index");
    assert |stem| > 5 && |"index"| == 5;
    IndexEnding(stem);
  }
}
