/** The first prose paragraph of a Markdown document (scripts/mdbook_seo.py, `first_paragraph`). */
module Paragraph {
  import opened Uri

  // ------------------------------------------------------------------ lines

  /** Python's white space, for `strip` and for `\s` alike. */
  predicate IsSpace(c: char) {
    || '\t' <= c <= '\r' || '\U{1C}' <= c <= ' ' || c == '\U{85}' || c == '\U{A0}' || c == '\U{1680}'
    || '\U{2000}' <= c <= '\U{200A}' || c == '\U{2028}' || c == '\U{2029}'
    || c == '\U{202F}' || c == '\U{205F}' || c == '\U{3000}'
  }

  function StripRight(s: string): (r: string)
    ensures StartsWith(s, r) && (forall i | |r| <= i < |s| :: IsSpace(s[i])) && (r != "" ==> !IsSpace(r[|r| - 1]))
  {
    if s != "" && IsSpace(s[|s| - 1]) then
      var r := StripRight(s[..|s| - 1]);
      assert s[..|r|] == s[..|s| - 1][..|r|];
      r
    else s
  }

  function StripLeft(s: string): (r: string)
    ensures EndsWith(s, r) && (forall i | 0 <= i < |s| - |r| :: IsSpace(s[i])) && (r != "" ==> !IsSpace(r[0]))
  {
    if s != "" && IsSpace(s[0]) then
      var r := StripLeft(s[1..]);
      assert s[|s| - |r|..] == s[1..][|s| - 1 - |r|..];
      r
    else s
  }

  function Strip(s: string): string {
    StripRight(StripLeft(s))
  }

  predicate Digit(c: char) {
    '0' <= c <= '9'
  }

  /** `#{1,6}\s` */
  predicate Heading(s: string) {
    exists k | 1 <= k <= 6 && k < |s| :: IsSpace(s[k]) && forall i | 0 <= i < k :: s[i] == '#'
  }

  /** `\d+\.\s` */
  predicate Numbered(s: string) {
    exists k | 1 <= k < |s| - 1 :: NumberEnds(s, k)
  }

  predicate NumberEnds(s: string, k: nat)
    requires k < |s| - 1
  {
    s[k] == '.' && IsSpace(s[k + 1]) && forall i | 0 <= i < k :: Digit(s[i])
  }

  predicate Markup(s: string) {
    || Heading(s)
    || (s != "" && s[0] in ">|<")
    || (|s| >= 2 && s[0] in "-*+" && IsSpace(s[1]))
    || Numbered(s)
    || StartsWith(s, "{{")
  }

  datatype Kind = Fence | Blank | Skipped | Text

  function KindOf(line: string): Kind {
    var s := Strip(StripRight(line));
    if StartsWith(s, "```") || StartsWith(s, "~~~") then Fence
    else if s == "" then Blank
    else if Markup(s) then Skipped
    else Text
  }

  // ------------------------------------------------------------------ what the first paragraph is

  /** The number of fence lines among the first `n`. */
  function Fences(lines: seq<string>, n: nat): nat
    requires n <= |lines|
  {
    if n == 0 then 0 else Fences(lines, n - 1) + if KindOf(lines[n - 1]).Fence? then 1 else 0
  }

  /** A text line with an even number of fence lines before it. */
  predicate Prose(lines: seq<string>, i: nat)
    requires i < |lines|
  {
    KindOf(lines[i]).Text? && Fences(lines, i) % 2 == 0
  }

  /** Lines `a` to `b - 1` are the first maximal run of prose. */
  predicate ParagraphAt(lines: seq<string>, a: nat, b: nat) {
    && a < b <= |lines|
    && (forall i | 0 <= i < a :: !Prose(lines, i))
    && (forall i | a <= i < b :: Prose(lines, i))
    && (b < |lines| ==> !Prose(lines, b))
  }

  function Stripped(lines: seq<string>, a: nat, b: nat): (r: seq<string>)
    requires a <= b <= |lines|
    ensures |r| == b - a
  {
    if a == b then [] else Stripped(lines, a, b - 1) + [Strip(StripRight(lines[b - 1]))]
  }

  function Spaced(words: seq<string>): string {
    if words == [] then ""
    else if |words| == 1 then words[0]
    else Spaced(words[..|words| - 1]) + " " + words[|words| - 1]
  }

  // ------------------------------------------------------------------ first_paragraph

  method FirstParagraph(lines: seq<string>) returns (text: string)
    ensures forall a: nat, b: nat | ParagraphAt(lines, a, b) :: text == Spaced(Stripped(lines, a, b))
    ensures (forall i | 0 <= i < |lines| :: !Prose(lines, i)) ==> text == ""
    ensures text == "" ==> forall i | 0 <= i < |lines| :: !Prose(lines, i)
  {
    hide Markup, Strip, StripRight, StartsWith;
    var buffer: seq<string> := [];
    var inFence := false;
    ghost var a := 0;
    var i := 0;
    while i < |lines|
      invariant a <= i <= |lines|
      invariant inFence <==> Fences(lines, i) % 2 == 1
      invariant buffer == Stripped(lines, a, i)
      invariant buffer != [] ==> !inFence
      invariant forall k | 0 <= k < a :: !Prose(lines, k)
      invariant forall k | a <= k < i :: Prose(lines, k)
    {
      var stripped := Strip(StripRight(lines[i]));
      if StartsWith(stripped, "```") || StartsWith(stripped, "~~~") {
        inFence := !inFence;
        if buffer != [] {
          break;
        }
        i := i + 1;
        a := i;
        continue;
      }
      if inFence {
        i := i + 1;
        a := i;
        continue;
      }
      if stripped == "" {
        if buffer != [] {
          break;
        }
        i := i + 1;
        a := i;
        continue;
      }
      if Markup(stripped) {
        if buffer != [] {
          break;
        }
        i := i + 1;
        a := i;
        continue;
      }
      buffer := buffer + [stripped];
      i := i + 1;
    }
    text := Spaced(buffer);
    if buffer == [] {
      assert a == i == |lines|;
      NoParagraph(lines);
    } else {
      assert ParagraphAt(lines, a, i);
      ParagraphsAgree(lines, a, i);
      assert Prose(lines, a);
      WordsShow(lines, a, i);
    }
  }

  lemma NoParagraph(lines: seq<string>)
    requires forall i | 0 <= i < |lines| :: !Prose(lines, i)
    ensures forall a: nat, b: nat :: !ParagraphAt(lines, a, b)
  {
    hide Prose;
    forall a: nat, b: nat
      ensures !ParagraphAt(lines, a, b)
    {
      if a < b <= |lines| { assert !Prose(lines, a); }
    }
  }

  lemma ParagraphsAgree(lines: seq<string>, a: nat, b: nat)
    requires ParagraphAt(lines, a, b)
    ensures forall a': nat, b': nat | ParagraphAt(lines, a', b') :: a' == a && b' == b
  {
    hide KindOf, Fences;
    forall a': nat, b': nat | ParagraphAt(lines, a', b')
      ensures a' == a && b' == b
    {
      assert Prose(lines, a) && Prose(lines, a');
      assert a' == a;
      assert b < |lines| ==> !Prose(lines, b);
      assert b' < |lines| ==> !Prose(lines, b');
    }
  }

  lemma {:induction false} WordsShow(lines: seq<string>, a: nat, b: nat)
    requires a < b <= |lines| && forall i | a <= i < b :: Prose(lines, i)
    ensures Spaced(Stripped(lines, a, b)) != ""
    decreases b
  {
    hide Markup, Strip, StripRight, StartsWith;
    var words := Stripped(lines, a, b);
    assert Prose(lines, b - 1);
    if b - a > 1 {
      assert words[..|words| - 1] == Stripped(lines, a, b - 1);
    }
  }

  // ------------------------------------------------------------------ laws

  /** There is a first paragraph exactly when there is any prose. */
  lemma ParagraphExists(lines: seq<string>, i: nat)
    requires i < |lines| && Prose(lines, i)
    ensures exists a: nat, b: nat :: ParagraphAt(lines, a, b)
  {
    hide Prose;
    var a := 0;
    while !Prose(lines, a)
      invariant a <= i && forall k | 0 <= k < a :: !Prose(lines, k)
      decreases i - a
    {
      a := a + 1;
    }
    var b := a + 1;
    while b < |lines| && Prose(lines, b)
      invariant a < b <= |lines| && forall k | a <= k < b :: Prose(lines, k)
    {
      b := b + 1;
    }
    assert ParagraphAt(lines, a, b);
  }

  /** Front matter with closed fences and no prose, however long, does not change what is extracted. */
  lemma FrontMatterInvisible(front: seq<string>, lines: seq<string>, a: nat, b: nat)
    requires Fences(front, |front|) % 2 == 0 && forall i | 0 <= i < |front| :: !Prose(front, i)
    requires ParagraphAt(lines, a, b)
    ensures ParagraphAt(front + lines, |front| + a, |front| + b)
    ensures Stripped(front + lines, |front| + a, |front| + b) == Stripped(lines, a, b)
  {
    hide KindOf, Fences;
    var all := front + lines;
    forall i | 0 <= i < |front|
      ensures !Prose(all, i)
    {
      FencesPrefix(front, lines, i);
      assert !Prose(front, i);
    }
    forall i | |front| <= i < |all|
      ensures Prose(all, i) <==> Prose(lines, i - |front|)
    {
      FencesAfter(front, lines, i - |front|);
    }
    StrippedAfter(front, lines, a, b);
  }

  lemma FencesPrefix(front: seq<string>, lines: seq<string>, n: nat)
    requires n <= |front|
    ensures Fences(front + lines, n) == Fences(front, n)
  {
    hide KindOf;
    if n > 0 { FencesPrefix(front, lines, n - 1); }
  }

  lemma FencesAfter(front: seq<string>, lines: seq<string>, n: nat)
    requires n <= |lines|
    ensures Fences(front + lines, |front| + n) == Fences(front, |front|) + Fences(lines, n)
  {
    hide KindOf;
    if n == 0 { FencesPrefix(front, lines, |front|); } else { FencesAfter(front, lines, n - 1); }
  }

  lemma StrippedAfter(front: seq<string>, lines: seq<string>, a: nat, b: nat)
    requires a <= b <= |lines|
    ensures Stripped(front + lines, |front| + a, |front| + b) == Stripped(lines, a, b)
  {
    hide Strip, StripRight;
    if a < b { StrippedAfter(front, lines, a, b - 1); }
  }

  // ------------------------------------------------------------------ lines, word by word

  /** White space around a line never matters: what is left of it is the one text without any at its ends. */
  lemma TrimmedIs(front: string, core: string, back: string)
    requires (forall i | 0 <= i < |front| :: IsSpace(front[i])) && forall i | 0 <= i < |back| :: IsSpace(back[i])
    requires core != "" ==> Trimmed(core)
    ensures Strip(StripRight(front + core + back)) == core
    ensures core != "" ==> KindOf(front + core + back) == KindOf(core)
  {
    hide IsSpace, StripRight, Strip, KindOf, Trimmed;
    if core == "" {
      AllSpace(front, back);
    } else {
      StrippedTo(front, core, back);
      StrippedTo("", core, "");
      assert "" + core + "" == core;
      KindByStrip(front + core + back, core);
    }
  }

  lemma AllSpace(front: string, back: string)
    requires (forall i | 0 <= i < |front| :: IsSpace(front[i])) && forall i | 0 <= i < |back| :: IsSpace(back[i])
    ensures Strip(StripRight(front + "" + back)) == ""
  {
    hide IsSpace, StripRight, Strip;
    assert front + "" == front;
    BlankIs(front + back);
    Nothing();
  }

  lemma BlankIs(spaces: string)
    requires forall i | 0 <= i < |spaces| :: IsSpace(spaces[i])
    ensures StripRight(spaces) == ""
  {
    hide IsSpace, StripRight;
    RightIs("", spaces);
    assert "" + spaces == spaces;
  }

  lemma StrippedTo(front: string, core: string, back: string)
    requires (forall i | 0 <= i < |front| :: IsSpace(front[i])) && forall i | 0 <= i < |back| :: IsSpace(back[i])
    requires Trimmed(core)
    ensures Strip(StripRight(front + core + back)) == core
  {
    hide IsSpace, StripRight, StripLeft;
    assert (front + core)[|front| + |core| - 1] == core[|core| - 1];
    RightIs(front + core, back);
    LeftIs(front, core);
    RightIs(core, "");
    assert core + "" == core;
  }

  lemma KindByStrip(line: string, other: string)
    requires Strip(StripRight(line)) == Strip(StripRight(other))
    ensures KindOf(line) == KindOf(other)
  {
    hide Markup, StripRight, Strip, StartsWith;
  }

  lemma Nothing()
    ensures Strip("") == ""
  {
  }

  lemma {:induction false} RightIs(s: string, spaces: string)
    requires (s != "" ==> !IsSpace(s[|s| - 1])) && forall i | 0 <= i < |spaces| :: IsSpace(spaces[i])
    ensures StripRight(s + spaces) == s
    decreases |spaces|
  {
    hide IsSpace;
    if spaces == "" {
      assert s + spaces == s;
    } else {
      var k := |spaces| - 1;
      assert (s + spaces)[|s| + k] == spaces[k];
      assert (s + spaces)[..|s| + k] == s + spaces[..k];
      RightIs(s, spaces[..k]);
    }
  }

  lemma {:induction false} LeftIs(spaces: string, s: string)
    requires s != "" && !IsSpace(s[0]) && forall i | 0 <= i < |spaces| :: IsSpace(spaces[i])
    ensures StripLeft(spaces + s) == s
    decreases |spaces|
  {
    hide IsSpace;
    if spaces == "" {
      assert spaces + s == s;
    } else {
      assert (spaces + s)[0] == spaces[0] && (spaces + s)[1..] == spaces[1..] + s;
      LeftIs(spaces[1..], s);
    }
  }

  /** A text with no white space at its ends. */
  predicate Trimmed(s: string) {
    s != "" && !IsSpace(s[0]) && !IsSpace(s[|s| - 1])
  }

  lemma TrimmedKind(s: string)
    requires Trimmed(s)
    ensures KindOf(s) == if StartsWith(s, "```") || StartsWith(s, "~~~") then Fence
                         else if Markup(s) then Skipped else Text
  {
    hide Markup, IsSpace, StripRight, Strip, StartsWith;
    StrippedTo("", s, "");
    assert "" + s + "" == s;
  }

  /** Three backquotes or tildes make a fence. */
  lemma FenceLines(s: string)
    requires Trimmed(s) && |s| >= 3 && (s[..3] == "```" || s[..3] == "~~~")
    ensures KindOf(s) == Fence
  {
    hide Markup, IsSpace;
    TrimmedKind(s);
  }

  /** Of the lines that open with hashes, those with one to six of them and then white space are headings, and every
      other is prose. */
  lemma HashLines(s: string, n: nat)
    requires Trimmed(s) && 1 <= n <= |s| && (forall i | 0 <= i < n :: s[i] == '#') && (n < |s| ==> s[n] != '#')
    ensures KindOf(s) == if n <= 6 && n < |s| && IsSpace(s[n]) then Skipped else Text
  {
    hide IsSpace, KindOf;
    TrimmedKind(s);
    assert s[0] == '#';
    StartsChar(s, "```", 0);
    StartsChar(s, "~~~", 0);
    StartsChar(s, "{{", 0);
    HashIsNoSpace();
    assert Heading(s) <==> n <= 6 && n < |s| && IsSpace(s[n]) by {
      if Heading(s) {
        var k :| 1 <= k <= 6 && k < |s| && IsSpace(s[k]) && forall i | 0 <= i < k :: s[i] == '#';
        assert k == n;
      }
    }
    assert Numbered(s) ==> Digit(s[0]);
  }

  lemma HashIsNoSpace()
    ensures !IsSpace('#')
  {
  }

  /** A line that opens with a letter is prose; one with a mark of a quotation, a table or a tag is not, nor is one
      with a directive; a dash, star or plus makes a list item only before white space. */
  lemma FirstCharacters(s: string)
    requires Trimmed(s)
    ensures AsciiLetter(s[0]) ==> KindOf(s) == Text
    ensures s[0] in ">|<" ==> KindOf(s) == Skipped
    ensures |s| >= 2 && s[0] == s[1] == '{' ==> KindOf(s) == Skipped
    ensures s[0] in "-*+" ==> KindOf(s) == if |s| > 1 && IsSpace(s[1]) then Skipped else Text
  {
    hide IsSpace, KindOf;
    TrimmedKind(s);
    StartsChar(s, "```", 0);
    StartsChar(s, "~~~", 0);
    StartsChar(s, "{{", 0);
    assert Numbered(s) ==> Digit(s[0]);
    assert |s| >= 2 && s[0] == s[1] == '{' ==> s[..2] == "{{";
  }

  /** A number makes a list item exactly with a full stop and white space after it. */
  lemma DigitLines(s: string, n: nat)
    requires Trimmed(s) && 1 <= n <= |s| && (forall i | 0 <= i < n :: Digit(s[i])) && (n < |s| ==> !Digit(s[n]))
    ensures KindOf(s) == if n + 1 < |s| && s[n] == '.' && IsSpace(s[n + 1]) then Skipped else Text
  {
    hide IsSpace, KindOf;
    TrimmedKind(s);
    assert Digit(s[0]);
    StartsChar(s, "```", 0);
    StartsChar(s, "~~~", 0);
    StartsChar(s, "{{", 0);
    assert n + 1 < |s| && s[n] == '.' && IsSpace(s[n + 1]) ==> NumberEnds(s, n);
    if Numbered(s) {
      var k :| 1 <= k < |s| - 1 && NumberEnds(s, k);
      assert !Digit('.') && k == n;
    }
  }

  /** The words of a paragraph stand in order with one space between them. */
  lemma {:induction false} SpacedConcat(xs: seq<string>, ys: seq<string>)
    requires xs != [] && ys != []
    ensures Spaced(xs + ys) == Spaced(xs) + " " + Spaced(ys)
    ensures |xs| == 1 ==> Spaced(xs) == xs[0]
    decreases |ys|
  {
    var k := |ys| - 1;
    assert (xs + ys)[..|xs + ys| - 1] == xs + ys[..k];
    if k > 0 {
      SpacedConcat(xs, ys[..k]);
      var (x, y) := (Spaced(xs), Spaced(ys[..k]));
      assert (x + " " + y) + " " + ys[k] == x + " " + (y + " " + ys[k]);
    } else {
      assert xs + ys[..0] == xs;
    }
  }

  lemma {:induction false} StrippedEach(lines: seq<string>, a: nat, b: nat, i: nat)
    requires a + i < b <= |lines|
    ensures Stripped(lines, a, b)[i] == Strip(StripRight(lines[a + i]))
    decreases b
  {
    hide Strip, StripRight;
    if a + i < b - 1 { StrippedEach(lines, a, b - 1, i); }
  }

  /** By code point, Python's white space. */
  lemma SpacesAre(c: char)
    ensures IsSpace(c) <==>
            || 9 <= c as int <= 13 || 28 <= c as int <= 32 || 0x2000 <= c as int <= 0x200A
            || c as int in {0x85, 0xA0, 0x1680, 0x2028, 0x2029, 0x202F, 0x205F, 0x3000}
  {
  }

  /** A heading, an empty line, a paragraph of two lines, an empty line: the paragraph is what is found. */
  lemma ParagraphExample()
    ensures var lines := ["# Title", "", " Hello", "world ", ""];
            ParagraphAt(lines, 2, 4) && Spaced(Stripped(lines, 2, 4)) == "Hello world"
  {
    hide KindOf, Strip, StripRight;
    var lines := ["# Title", "", " Hello", "world ", ""];
    LineKinds();
    assert Fences(lines, 0) == Fences(lines, 1) == Fences(lines, 2) == Fences(lines, 3) == Fences(lines, 4) == 0;
    assert Prose(lines, 2) && Prose(lines, 3) && !Prose(lines, 0) && !Prose(lines, 1) && !Prose(lines, 4);
    LineTexts();
    var words := Stripped(lines, 2, 4);
    StrippedEach(lines, 2, 4, 0);
    StrippedEach(lines, 2, 4, 1);
    assert words == ["Hello"] + ["world"];
    SpacedConcat(["Hello"], ["world"]);
    assert Spaced(["world"]) == "world";
    assert "Hello" + " " + "world" == "Hello world";
  }

  lemma LineKinds()
    ensures KindOf("# Title") == Skipped && KindOf("") == Blank
    ensures KindOf(" Hello") == KindOf("world ") == Text
  {
    hide KindOf;
    TitleIsHeading();
    BlankLine();
    assert " " + "Hello" + "" == " Hello" && "" + "world" + " " == "world ";
    PlainLine(" ", "Hello", "");
    PlainLine("", "world", " ");
  }

  lemma TitleIsHeading()
    ensures KindOf("# Title") == Skipped
  {
    hide KindOf, IsSpace;
    LettersAreNoSpace();
    HashLines("# Title", 1);
  }

  lemma PlainLine(front: string, word: string, back: string)
    requires word != "" && AsciiLetter(word[0]) && AsciiLetter(word[|word| - 1])
    requires (forall i | 0 <= i < |front| :: front[i] == ' ') && forall i | 0 <= i < |back| :: back[i] == ' '
    ensures KindOf(front + word + back) == Text
  {
    hide KindOf, IsSpace;
    LettersAreNoSpace();
    TrimmedIs(front, word, back);
    FirstCharacters(word);
  }

  lemma LineTexts()
    ensures Strip(StripRight(" Hello")) == "Hello" && Strip(StripRight("world ")) == "world"
  {
    hide KindOf, Strip, StripRight;
    LettersAreNoSpace();
    assert " " + "Hello" + "" == " Hello" && "" + "world" + " " == "world ";
    TrimmedIs(" ", "Hello", "");
    TrimmedIs("", "world", " ");
  }

  lemma LettersAreNoSpace()
    ensures IsSpace(' ') && forall c | AsciiLetter(c) || c == '#' :: !IsSpace(c)
  {
  }

  lemma BlankLine()
    ensures KindOf("") == Blank
  {
    hide Markup;
    Nothing();
  }
}
