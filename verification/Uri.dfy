/** Relative reference resolution, section 5.2 of RFC 3986, on character sequences. */
module Uri {
  import opened Options

  /** The five components of section 3. */
  datatype Uri = Uri(
    scheme: Option<string>, authority: Option<string>, path: string, query: Option<string>, fragment: Option<string>)

  // ------------------------------------------------------------------ strings

  /** The index of the first character of `s` that is in `cs`, or `|s|`. */
  function FirstOf(s: string, cs: set<char>): (r: nat)
    ensures r <= |s|
    ensures forall i | 0 <= i < r :: s[i] !in cs
    ensures r < |s| ==> s[r] in cs
  {
    if s == "" || s[0] in cs then 0 else 1 + FirstOf(s[1..], cs)
  }

  predicate StartsWith(s: string, p: string) {
    |p| <= |s| && s[..|p|] == p
  }

  predicate EndsWith(s: string, p: string) {
    |p| <= |s| && s[|s| - |p|..] == p
  }

  /** Everything but the last `n` characters. */
  function Chop(s: string, n: nat): string
    requires n <= |s|
  {
    s[..|s| - n]
  }

  lemma EndsIs(s: string, p: string)
    requires EndsWith(s, p)
    ensures |p| <= |s| && s == Chop(s, |p|) + p
  {
  }

  lemma EndsAppend(a: string, p: string)
    ensures EndsWith(a + p, p) && Chop(a + p, |p|) == a
  {
  }

  lemma EndsChar(s: string, p: string, i: nat)
    requires i < |p|
    ensures EndsWith(s, p) ==> |p| <= |s| && s[|s| - |p| + i] == p[i]
  {
  }

  lemma StartsChar(s: string, p: string, i: nat)
    requires i < |p|
    ensures StartsWith(s, p) ==> |p| <= |s| && s[i] == p[i]
  {
    if StartsWith(s, p) {
      assert s[..|p|][i] == p[i];
    }
  }

  lemma StartsIs(s: string, p: string)
    requires StartsWith(s, p)
    ensures |p| <= |s| && s == p + s[|p|..]
  {
  }

  /** Everything up to and including the last slash. */
  function Directory(path: string): (d: string)
    ensures StartsWith(path, d)
    ensures '/' !in path[|d|..]
    ensures d == "" || d[|d| - 1] == '/'
  {
    if path == "" then ""
    else if path[|path| - 1] == '/' then path
    else Directory(path[..|path| - 1])
  }

  /** A path splits in only one way into a directory and a last segment. */
  lemma DirectoryUnique(d: string, f: string)
    requires d == "" || d[|d| - 1] == '/'
    requires '/' !in f
    ensures Directory(d + f) == d
  {
    var path := d + f;
    if f == "" {
      assert path == d;
    } else {
      assert path[|path| - 1] == f[|f| - 1] != '/';
      assert path[..|path| - 1] == d + f[..|f| - 1];
      DirectoryUnique(d, f[..|f| - 1]);
    }
  }

  lemma Split(d: string, f: string, e: string, g: string)
    requires (d == "" || d[|d| - 1] == '/') && (e == "" || e[|e| - 1] == '/') && '/' !in f && '/' !in g
    requires d + f == e + g
    ensures d == e && f == g
  {
    hide Directory;
    DirectoryUnique(d, f);
    DirectoryUnique(e, g);
    assert (d + f)[|d|..] == f && (e + g)[|e|..] == g;
  }

  lemma Assoc(a: string, b: string, c: string)
    ensures (a + b) + c == a + (b + c)
  {
  }

  // ------------------------------------------------------------------ parsing (sections 3 and 4)

  predicate AsciiLetter(c: char) {
    'a' <= c <= 'z' || 'A' <= c <= 'Z'
  }

  predicate SchemeChar(c: char) {
    AsciiLetter(c) || '0' <= c <= '9' || c == '+' || c == '-' || c == '.'
  }

  /** `s` opens with a scheme and its colon. */
  predicate HasScheme(s: string) {
    var k := FirstOf(s, {':'});
    0 < k < |s| && AsciiLetter(s[0]) && forall i | 0 <= i < k :: SchemeChar(s[i])
  }

  function PathEnd(s: string): (r: nat)
    ensures r <= |s|
  {
    FirstOf(s, {'?', '#'})
  }

  function Query(tail: string): Option<string> {
    var k := FirstOf(tail, {'#'});
    if k > 0 && tail[0] == '?' then Some(tail[1..k]) else None
  }

  function Fragment(tail: string): Option<string> {
    var k := FirstOf(tail, {'#'});
    if k < |tail| then Some(tail[k + 1..]) else None
  }

  function ParseRelative(s: string, scheme: Option<string>): Uri {
    if StartsWith(s, "//") then
      var n := FirstOf(s[2..], {'/', '?', '#'});
      var rest := s[2 + n..];
      var p := PathEnd(rest);
      Uri(scheme, Some(s[2..2 + n]), rest[..p], Query(rest[p..]), Fragment(rest[p..]))
    else
      var p := PathEnd(s);
      Uri(scheme, None, s[..p], Query(s[p..]), Fragment(s[p..]))
  }

  function Parse(s: string): Uri {
    if HasScheme(s) then
      var k := FirstOf(s, {':'});
      ParseRelative(s[k + 1..], Some(s[..k]))
    else
      ParseRelative(s, None)
  }

  /** What section 5.3 writes after the path. */
  function Recompose(query: Option<string>, fragment: Option<string>): string {
    (if query.Some? then "?" + query.value else "") + (if fragment.Some? then "#" + fragment.value else "")
  }

  /** Query and fragment keep every character that follows the path. */
  lemma RecomposeTail(tail: string)
    requires tail == "" || tail[0] == '?' || tail[0] == '#'
    ensures Recompose(Query(tail), Fragment(tail)) == tail
  {
    var k := FirstOf(tail, {'#'});
    if tail != "" {
      assert tail[..k] + tail[k..] == tail;
    }
  }

  // ------------------------------------------------------------------ section 5.2.4

  /** The output buffer without its last segment and that segment's slash. */
  function DropLast(out: string): (r: string)
    ensures StartsWith(out, r)
  {
    if out == "" then ""
    else if out[|out| - 1] == '/' then out[..|out| - 1]
    else DropLast(out[..|out| - 1])
  }

  /** Length of the first segment, with its leading slash if it has one. */
  function FirstSegment(input: string): (n: nat)
    requires input != ""
    ensures 0 < n <= |input|
  {
    1 + FirstOf(input[1..], {'/'})
  }

  /** Steps 2A to 2E, the input and the output buffer as in the text. */
  function RemoveDots(input: string, out: string): string
    decreases |input|
  {
    if input == "" then out
    else if StartsWith(input, "../") then RemoveDots(input[3..], out)
    else if StartsWith(input, "./") then RemoveDots(input[2..], out)
    else if StartsWith(input, "/./") then RemoveDots(input[2..], out)
    else if input == "/." then RemoveDots("/", out)
    else if StartsWith(input, "/../") then RemoveDots(input[3..], DropLast(out))
    else if input == "/.." then RemoveDots("/", DropLast(out))
    else if input == "." || input == ".." then out
    else var n := FirstSegment(input); RemoveDots(input[n..], out + input[..n])
  }

  // ------------------------------------------------------------------ sections 5.2.2 and 5.2.3

  function Merge(base: Uri, path: string): string {
    if base.authority.Some? && base.path == "" then "/" + path else Directory(base.path) + path
  }

  function Resolve(base: Uri, r: Uri): Uri {
    if r.scheme.Some? then r.(path := RemoveDots(r.path, ""))
    else if r.authority.Some? then r.(scheme := base.scheme, path := RemoveDots(r.path, ""))
    else
      Uri(base.scheme, base.authority,
          if r.path == "" then base.path
          else if r.path[0] == '/' then RemoveDots(r.path, "")
          else RemoveDots(Merge(base, r.path), ""),
          if r.path == "" && r.query.None? then base.query else r.query,
          r.fragment)
  }

  // ------------------------------------------------------------------ what dot removal does to the last segment

  /** `s` is an absolute directory path. */
  predicate IsDir(s: string) {
    s != "" && s[0] == '/' && s[|s| - 1] == '/'
  }

  /** How much of a directory its first step consumes, and what it does to the output. */
  function Skip(dir: string): (n: nat)
    requires |dir| > 1 && IsDir(dir)
    ensures 0 < n < |dir| && dir[n] == '/'
  {
    SegmentInside(dir);
    if StartsWith(dir, "/./") then assert dir[..3][2] == '/'; 2
    else if StartsWith(dir, "/../") then assert dir[..4][3] == '/'; 3
    else FirstSegment(dir)
  }

  function Emit(dir: string, out: string): string
    requires |dir| > 1 && IsDir(dir)
  {
    if StartsWith(dir, "/./") then out
    else if StartsWith(dir, "/../") then DropLast(out)
    else out + dir[..Skip(dir)]
  }

  lemma SegmentInside(dir: string)
    requires |dir| > 1 && IsDir(dir)
    ensures FirstSegment(dir) < |dir| && dir[FirstSegment(dir)] == '/'
  {
    assert dir[1..][|dir| - 2] == '/';
  }

  /** The output once only the directory's last slash is left. */
  function Walked(dir: string, out: string): string
    requires IsDir(dir)
    decreases |dir|
  {
    if |dir| == 1 then out else Walked(dir[Skip(dir)..], Emit(dir, out))
  }

  /** Text that follows a directory is reached with the same output, whatever that text is. */
  lemma {:induction false} DirectoryIsWalked(dir: string, rest: string, out: string)
    requires IsDir(dir)
    ensures RemoveDots(dir + rest, out) == RemoveDots("/" + rest, Walked(dir, out))
    decreases |dir|
  {
    hide RemoveDots, Skip, Emit;
    if |dir| == 1 {
      assert dir == "/";
    } else {
      FirstStep(dir, rest, out);
      var n := Skip(dir);
      assert (dir + rest)[n..] == dir[n..] + rest;
      DirectoryIsWalked(dir[n..], rest, Emit(dir, out));
    }
  }

  /** The first step on a directory looks at nothing beyond it. */
  lemma FirstStep(dir: string, rest: string, out: string)
    requires |dir| > 1 && IsDir(dir)
    ensures RemoveDots(dir + rest, out) == RemoveDots((dir + rest)[Skip(dir)..], Emit(dir, out))
  {
    hide FirstSegment, FirstOf, DropLast;
    var input := dir + rest;
    assert input[0] == '/';
    SameSegment(dir, rest);
    PrefixSame(dir, rest, "/./");
    PrefixSame(dir, rest, "/../");
    NotDots(input);
    var n := Skip(dir);
    assert input[..n] == dir[..n];
  }

  lemma NotDots(input: string)
    requires input != "" && input[0] == '/'
    ensures !StartsWith(input, "../") && !StartsWith(input, "./") && input != "." && input != ".."
  {
    assert forall n | 0 < n <= |input| :: input[..n][0] == '/';
  }

  lemma SameSegment(dir: string, rest: string)
    requires |dir| > 1 && IsDir(dir)
    ensures FirstSegment(dir + rest) == FirstSegment(dir)
  {
    SegmentInside(dir);
    var n := FirstOf(dir[1..], {'/'});
    assert (dir + rest)[1..] == dir[1..] + rest;
    FirstOfIs(dir[1..] + rest, {'/'}, n);
  }

  lemma FirstOfIs(s: string, cs: set<char>, k: nat)
    requires k <= |s| && (forall i | 0 <= i < k :: s[i] !in cs) && (k < |s| ==> s[k] in cs)
    ensures FirstOf(s, cs) == k
  {
  }

  /** `dir`, which ends in a slash, already shows whether a dot segment comes first. */
  lemma PrefixSame(dir: string, rest: string, dots: string)
    requires |dir| > 1 && IsDir(dir)
    requires dots == "/./" || dots == "/../"
    ensures StartsWith(dir + rest, dots) <==> StartsWith(dir, dots)
    ensures dir + rest != "/." && dir + rest != "/.."
  {
    var input := dir + rest;
    var k := |dir| - 1;
    assert input[k] == '/';
    if |dir| >= |dots| {
      assert input[..|dots|] == dir[..|dots|];
    } else {
      assert dots[k] == '.';
      assert |input| >= |dots| ==> input[..|dots|][k] == '/';
    }
  }

  /** The last step, by the last segment. */
  lemma LastStep(f: string, o: string)
    requires '/' !in f
    ensures f != "." && f != ".." ==> RemoveDots("/" + f, o) == o + "/" + f
    ensures f == "." ==> RemoveDots("/" + f, o) == o + "/"
    ensures f == ".." ==> RemoveDots("/" + f, o) == DropLast(o) + "/"
  {
    if f == "." {
      assert "/" + f == "/.";
      DotSteps(o);
    } else if f == ".." {
      assert "/" + f == "/..";
      DotSteps(o);
    } else {
      PlainStep(f, o);
    }
  }

  /** The three ways a path can end in a dot segment. */
  lemma DotSteps(o: string)
    ensures RemoveDots("/.", o) == o + "/"
    ensures RemoveDots("/..", o) == DropLast(o) + "/"
    ensures RemoveDots("/./", o) == o + "/"
  {
    NotDots("/.");
    NotDots("/..");
    NotDots("/./");
    Slash(o);
    Slash(DropLast(o));
    assert |"/.."| == 3 && "/.."[..3][2] != "/./"[2];
    assert "/./"[2..] == "/" && "/./"[..3] == "/./";
  }

  lemma PlainStep(f: string, o: string)
    requires '/' !in f && f != "." && f != ".."
    ensures RemoveDots("/" + f, o) == o + "/" + f
  {
    var input := "/" + f;
    assert input[1..] == f;
    assert |input| >= 3 ==> input[..3][2] == f[1];
    assert |input| >= 4 ==> input[..4][3] == f[2];
    NotDots(input);
    FirstOfIs(f, {'/'}, |f|);
    assert FirstSegment(input) == |input|;
    assert input[|input|..] == "" && input[..|input|] == input;
    assert RemoveDots(input, o) == RemoveDots("", o + input);
    assert o + input == o + "/" + f;
  }

  lemma Slash(o: string)
    ensures RemoveDots("/", o) == o + "/"
  {
    PlainStep("", o);
    assert "/" + "" == "/" && o + "/" + "" == o + "/";
  }

  /** Resolving a directory followed by one segment: the segment is kept unless it is a dot segment, and
      then the result is a directory. A dot directory after it changes nothing. */
  lemma RemoveDotsLast(dir: string, f: string)
    requires IsDir(dir) && '/' !in f
    ensures EndsWith(RemoveDots(dir, ""), "/")
    ensures f != "." && f != ".." ==> RemoveDots(dir + f, "") == RemoveDots(dir, "") + f
    ensures f == "." ==> RemoveDots(dir + f, "") == RemoveDots(dir, "")
    ensures f == ".." ==> EndsWith(RemoveDots(dir + f, ""), "/")
    ensures RemoveDots(dir + "./", "") == RemoveDots(dir, "")
  {
    hide RemoveDots, Walked;
    var o := Walked(dir, "");
    DirectoryIsWalked(dir, "", "");
    DirectoryIsWalked(dir, f, "");
    DirectoryIsWalked(dir, "./", "");
    assert dir + "" == dir && "/" + "" == "/";
    LastStep(f, o);
    Slash(o);
    DotSteps(o);
    assert "/" + "./" == "/./";
  }

  // ------------------------------------------------------------------ the examples of the RFC

  /** A segment that is no dot segment moves to the output. */
  lemma SegmentMoves(f: string, rest: string, o: string)
    requires '/' !in f && f != "." && f != ".."
    ensures RemoveDots("/" + f + "/" + rest, o) == RemoveDots("/" + rest, o + "/" + f)
  {
    hide RemoveDots, FirstOf;
    var dir := "/" + f + "/";
    assert dir + rest == "/" + f + "/" + rest;
    FirstStep(dir, rest, o);
    NoDotsFirst(f);
    assert dir[1..] == f + "/" && dir[1..][|f|] == '/';
    FirstOfIs(dir[1..], {'/'}, |f|);
    assert (dir + rest)[|f| + 1..] == "/" + rest && dir[..|f| + 1] == "/" + f;
    assert o + ("/" + f) == o + "/" + f;
  }

  lemma NoDotsFirst(f: string)
    requires '/' !in f && f != "." && f != ".."
    ensures !StartsWith("/" + f + "/", "/./") && !StartsWith("/" + f + "/", "/../")
  {
    var dir := "/" + f + "/";
    assert dir[|f| + 1] == '/' && forall i | 1 <= i <= |f| :: dir[i] == f[i - 1];
    StartsChar(dir, "/./", 1);
    StartsChar(dir, "/./", 2);
    StartsChar(dir, "/../", 1);
    StartsChar(dir, "/../", 2);
    StartsChar(dir, "/../", 3);
    assert |f| == 1 ==> f[0] != '.' by { if |f| == 1 { assert f == [f[0]]; } }
    assert |f| == 2 && f[0] == '.' ==> f[1] != '.' by { if |f| == 2 { assert f == [f[0], f[1]]; } }
  }

  /** A dot segment in the middle is dropped, a double one with the segment before it. */
  lemma DotsGo(rest: string, o: string)
    ensures RemoveDots("/." + "/" + rest, o) == RemoveDots("/" + rest, o)
    ensures RemoveDots("/.." + "/" + rest, o) == RemoveDots("/" + rest, DropLast(o))
  {
    var one, two := "/." + "/" + rest, "/.." + "/" + rest;
    NotDots(one);
    NotDots(two);
    assert one[..3] == "/./" && one[2..] == "/" + rest;
    assert two[..4] == "/../" && two[3..] == "/" + rest;
    assert two[2] == '.';
    StartsChar(two, "/./", 2);
  }

  lemma Dropped(o: string, f: string)
    requires '/' !in f
    ensures DropLast(o + "/" + f) == o
  {
    var s := o + "/" + f;
    if f == "" {
      assert s[|s| - 1] == '/' && s[..|s| - 1] == o;
    } else {
      assert s[|s| - 1] == f[|f| - 1] != '/';
      assert s[..|s| - 1] == o + "/" + f[..|f| - 1];
      Dropped(o, f[..|f| - 1]);
    }
  }

  /** The first of the two examples of section 5.2.4. */
  lemma RemoveDotsExample()
    ensures RemoveDots("/a/b/c/./../../g", "") == "/a/g"
  {
    hide RemoveDots, DropLast;
    assert "/a/b/c/./../../g" == "/" + "a" + "/" + "b/c/./../../g";
    SegmentMoves("a", "b/c/./../../g", "");
    assert "/" + "b/c/./../../g" == "/" + "b" + "/" + "c/./../../g" && "" + "/" + "a" == "/a";
    SegmentMoves("b", "c/./../../g", "/a");
    assert "/" + "c/./../../g" == "/" + "c" + "/" + "./../../g" && "/a" + "/" + "b" == "/a/b";
    SegmentMoves("c", "./../../g", "/a/b");
    assert "/" + "./../../g" == "/." + "/" + "../../g" && "/a/b" + "/" + "c" == "/a/b/c";
    DotsGo("../../g", "/a/b/c");
    assert "/" + "../../g" == "/.." + "/" + "../g";
    DotsGo("../g", "/a/b/c");
    Dropped("/a/b", "c");
    assert "/" + "../g" == "/.." + "/" + "g";
    DotsGo("g", "/a/b");
    Dropped("/a", "b");
    PlainStep("g", "/a");
    assert "/a" + "/" + "g" == "/a/g";
  }

  const EXAMPLE_BASE := Uri(Some("http"), Some("a"), "/b/c/d;p", Some("q"), None)

  /** The base of section 5.4, and references of section 5.4.1 resolved against it. */
  lemma ResolveExamples()
    ensures Parse("http://a/b/c/d;p?q") == EXAMPLE_BASE
    ensures Resolve(EXAMPLE_BASE, Parse("../g")) == Uri(Some("http"), Some("a"), "/b/g", None, None)
    ensures Resolve(EXAMPLE_BASE, Parse("?y")) == Uri(Some("http"), Some("a"), "/b/c/d;p", Some("y"), None)
    ensures Resolve(EXAMPLE_BASE, Parse("")) == Uri(Some("http"), Some("a"), "/b/c/d;p", Some("q"), None)
    ensures Resolve(EXAMPLE_BASE, Parse("//g")) == Uri(Some("http"), Some("g"), "", None, None)
  {
    hide RemoveDots, Directory, Parse;
    ParseBase();
    ParseReferences();
    ParseHost();
    UpExample();
    assert RemoveDots("", "") == "" by { Nothing(); }
  }

  lemma Nothing()
    ensures RemoveDots("", "") == ""
  {
  }

  lemma UpExample()
    ensures RemoveDots(Directory("/b/c/d;p") + "../g", "") == "/b/g"
  {
    hide RemoveDots, DropLast, Directory;
    DirectoryUnique("/b/c/", "d;p");
    assert "/b/c/" + "d;p" == "/b/c/d;p";
    assert "/b/c/" + "../g" == "/" + "b" + "/" + "c/../g";
    SegmentMoves("b", "c/../g", "");
    assert "/" + "c/../g" == "/" + "c" + "/" + "../g" && "" + "/" + "b" == "/b";
    SegmentMoves("c", "../g", "/b");
    assert "/" + "../g" == "/.." + "/" + "g" && "/b" + "/" + "c" == "/b/c";
    DotsGo("g", "/b/c");
    Dropped("/b", "c");
    PlainStep("g", "/b");
    assert "/b" + "/" + "g" == "/b/g";
  }

  /** A reference with a host, by where its parts end. */
  lemma HostParsed(host: string, path: string, tail: string, scheme: Option<string>)
    requires (forall i | 0 <= i < |host| :: host[i] !in {'/', '?', '#'}) && '#' !in path && '?' !in path
    requires path == "" || path[0] == '/'
    requires tail == "" || tail[0] == '?' || tail[0] == '#'
    ensures ParseRelative("//" + (host + (path + tail)), scheme)
         == Uri(scheme, Some(host), path, Query(tail), Fragment(tail))
  {
    hide FirstOf, Query, Fragment;
    var rest := path + tail;
    var s, n := "//" + (host + rest), |host|;
    SlashesOff(host + rest);
    assert forall i | 0 <= i < n :: (host + rest)[i] == host[i];
    FirstOfIs(host + rest, {'/', '?', '#'}, n);
    assert s[2..2 + n] == host && s[2 + n..] == rest;
    FirstOfIs(rest, {'?', '#'}, |path|);
    assert rest[..|path|] == path && rest[|path|..] == tail;
  }

  lemma SlashesOff(r: string)
    ensures StartsWith("//" + r, "//") && ("//" + r)[2..] == r
  {
  }

  lemma ParseBase()
    ensures Parse("http://a/b/c/d;p?q") == EXAMPLE_BASE
  {
    hide FirstOf, ParseRelative;
    var s, r := "http://a/b/c/d;p?q", "//a/b/c/d;p?q";
    FirstOfIs(s, {':'}, 4);
    assert s[..4] == "http" && s[5..] == r;
    assert r == "//" + ("a" + ("/b/c/d;p" + "?q"));
    HostParsed("a", "/b/c/d;p", "?q", Some("http"));
    FirstOfIs("?q", {'#'}, 2);
    assert "?q"[1..2] == "q";
  }

  lemma ParseReferences()
    ensures Parse("../g") == Uri(None, None, "../g", None, None)
    ensures Parse("?y") == Uri(None, None, "", Some("y"), None)
    ensures Parse("") == Uri(None, None, "", None, None)
  {
    hide FirstOf;
    FirstOfIs("../g", {':'}, 4);
    FirstOfIs("../g", {'?', '#'}, 4);
    FirstOfIs("?y", {':'}, 2);
    FirstOfIs("?y", {'?', '#'}, 0);
    FirstOfIs("?y", {'#'}, 2);
    assert "?y"[..0] == "" && "?y"[1..2] == "y" && "?y"[0..] == "?y";
    FirstOfIs("", {'?', '#'}, 0);
    FirstOfIs("", {'#'}, 0);
    FirstOfIs("", {':'}, 0);
    assert "../g"[..4] == "../g" && "../g"[4..] == "";
    assert "../g"[..2] == "..";
  }

  lemma ParseHost()
    ensures Parse("//g") == Uri(None, Some("g"), "", None, None)
  {
    hide FirstOf, ParseRelative;
    FirstOfIs("//g", {':'}, 3);
    FirstOfIs("", {'#'}, 0);
    HostParsed("g", "", "", None);
    assert "//" + ("g" + ("" + "")) == "//g";
  }
}
