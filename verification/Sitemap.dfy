/** The order and the locations of the sitemap (scripts/mdbook_seo.py, `main` and `write_sitemap`). */
module Sitemap {
  import opened Links

  /** Python's order on strings: the first difference decides, and a prefix comes first. */
  predicate Before(a: string, b: string) {
    if b == "" then false
    else if a == "" then true
    else a[0] < b[0] || (a[0] == b[0] && Before(a[1..], b[1..]))
  }

  /** In full: up to some place the two agree, and there the first ends or has the smaller character. */
  lemma {:induction false} BeforeExactly(a: string, b: string)
    ensures Before(a, b) <==> exists k: nat :: DiffersAt(a, b, k) && (k == |a| || a[k] < b[k])
  {
    if b == "" {
    } else if a == "" {
      assert DiffersAt(a, b, 0);
    } else if a[0] != b[0] {
      assert DiffersAt(a, b, 0);
      assert forall k: nat :: DiffersAt(a, b, k) ==> k == 0;
    } else {
      BeforeExactly(a[1..], b[1..]);
      forall k: nat
        ensures DiffersAt(a[1..], b[1..], k) <==> DiffersAt(a, b, k + 1)
      {
        Shifted(a, b, k);
      }
      if Before(a, b) {
        var k: nat :| DiffersAt(a[1..], b[1..], k) && (k == |a[1..]| || a[1..][k] < b[1..][k]);
        assert DiffersAt(a, b, k + 1);
      }
      if exists k: nat :: DiffersAt(a, b, k) && (k == |a| || a[k] < b[k]) {
        var k: nat :| DiffersAt(a, b, k) && (k == |a| || a[k] < b[k]);
        assert DiffersAt(a[1..], b[1..], k - 1);
      }
    }
  }

  /** The first `k` characters are the same, and the second string goes on. */
  predicate DiffersAt(a: string, b: string, k: nat) {
    k <= |a| && k < |b| && a[..k] == b[..k] && (k < |a| ==> a[k] != b[k])
  }

  lemma Shifted(a: string, b: string, k: nat)
    requires a != "" && b != "" && a[0] == b[0]
    ensures DiffersAt(a[1..], b[1..], k) <==> DiffersAt(a, b, k + 1)
  {
    if k + 1 <= |a| && k + 1 <= |b| {
      assert a[..k + 1] == [a[0]] + a[1..][..k] && b[..k + 1] == [b[0]] + b[1..][..k];
    }
  }

  lemma {:induction false} BeforeTotal(a: string, b: string)
    ensures a == b || Before(a, b) || Before(b, a)
  {
    if a != "" && b != "" && a[0] == b[0] {
      BeforeTotal(a[1..], b[1..]);
      assert a == [a[0]] + a[1..] && b == [b[0]] + b[1..];
    }
  }

  lemma {:induction false} BeforeTransitive(a: string, b: string, c: string)
    requires Before(a, b) && Before(b, c)
    ensures Before(a, c) && a != c
  {
    if a != "" && a[0] == b[0] == c[0] {
      BeforeTransitive(a[1..], b[1..], c[1..]);
    }
  }

  predicate Ascending(urls: seq<string>) {
    forall i, j | 0 <= i < j < |urls| :: Before(urls[i], urls[j])
  }

  /** Insertion sort, standing for `sorted`. */
  function Insert(url: string, urls: seq<string>): (r: seq<string>)
    ensures forall u :: u in r <==> u == url || u in urls
    ensures |r| == |urls| + 1
  {
    if urls == [] || Before(url, urls[0]) then [url] + urls else [urls[0]] + Insert(url, urls[1..])
  }

  function Sorted(urls: seq<string>): (r: seq<string>)
    ensures forall u :: u in r <==> u in urls
    ensures |r| == |urls|
  {
    if urls == [] then [] else Insert(urls[|urls| - 1], Sorted(urls[..|urls| - 1]))
  }

  lemma {:induction false} InsertAscends(url: string, urls: seq<string>)
    requires Ascending(urls) && url !in urls
    ensures Ascending(Insert(url, urls))
  {
    if urls != [] && Before(url, urls[0]) {
      forall j | 0 <= j < |urls|
        ensures Before(url, urls[j])
      {
        if j > 0 { BeforeTransitive(url, urls[0], urls[j]); }
      }
    } else if urls != [] {
      assert urls[0] in urls;
      BeforeTotal(url, urls[0]);
      InsertAscends(url, urls[1..]);
      var r := Insert(url, urls[1..]);
      forall j | 0 <= j < |r|
        ensures Before(urls[0], r[j])
      {
        assert r[j] in r;
        if r[j] != url {
          var i :| 1 <= i < |urls| && urls[i] == r[j];
        }
      }
    }
  }

  lemma {:induction false} SortedAscends(urls: seq<string>)
    requires forall i, j | 0 <= i < j < |urls| :: urls[i] != urls[j]
    ensures Ascending(Sorted(urls))
  {
    if urls != [] {
      var k := |urls| - 1;
      SortedAscends(urls[..k]);
      assert urls[k] !in urls[..k];
      InsertAscends(urls[k], Sorted(urls[..k]));
    }
  }

  function Locations(base: string, pages: seq<Page>): (r: seq<string>)
    ensures |r| == |pages| && forall i | 0 <= i < |pages| :: r[i] == base + Canonical(pages[i])
  {
    seq(|pages|, i requires 0 <= i < |pages| => base + Canonical(pages[i]))
  }

  /** The sitemap of different files with names lists one location for each, in strictly ascending order, so it
      repeats none. */
  lemma SitemapIsStrict(base: string, pages: seq<Page>)
    requires forall i | 0 <= i < |pages| :: ValidPage(pages[i]) && pages[i].stem != ""
    requires forall i, j | 0 <= i < j < |pages| :: Posix(pages[i]) != Posix(pages[j])
    ensures var urls := Sorted(Locations(base, pages));
            && Ascending(urls) && |urls| == |pages|
            && forall u :: u in urls <==> u in Locations(base, pages)
  {
    hide Canonical, Posix, Sorted;
    var urls := Locations(base, pages);
    forall i, j | 0 <= i < j < |pages|
      ensures urls[i] != urls[j]
    {
      CanonicalDistinct(pages[i], pages[j]);
      SameName(base, Canonical(pages[i]), Canonical(pages[j]));
    }
    SortedAscends(urls);
  }
}
