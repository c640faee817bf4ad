/** Graph expansion and merging in the retrieval examples (examples/go/main.go,
    examples/python/paper_graph_rag.py, examples/ts/paper_graph_rag.ts). */
module GraphRag {

  type Id = nat

  datatype Edge = Edge(source: Id, target: Id, kind: string)

  /** The edge lists the store returns for a node, in the order it returns them. */
  datatype Graph = Graph(outgoing: map<Id, seq<Edge>>, incoming: map<Id, seq<Edge>>)

  function Out(g: Graph, n: Id): seq<Edge> {
    if n in g.outgoing then g.outgoing[n] else []
  }

  function In(g: Graph, n: Id): seq<Edge> {
    if n in g.incoming then g.incoming[n] else []
  }

  const CITES := "CITES"
  const AUTHORED := "AUTHORED_BY"

  // ------------------------------------------------------------------ discovery paths

  /** A way from the seed at index `s`: along its `i`-th outgoing or incoming citation, or along its `i`-th
      outgoing authorship and then back along the author's `j`-th incoming one. */
  datatype Path = Cited(s: nat, i: nat) | Citing(s: nat, i: nat) | SameAuthor(s: nat, i: nat, j: nat)

  predicate Exists(g: Graph, seeds: seq<Id>, p: Path) {
    p.s < |seeds| &&
    match p
    case Cited(s, i) => i < |Out(g, seeds[s])|
    case Citing(s, i) => i < |In(g, seeds[s])|
    case SameAuthor(s, i, j) => i < |Out(g, seeds[s])| && j < |In(g, Out(g, seeds[s])[i].target)|
  }

  function End(g: Graph, seeds: seq<Id>, p: Path): Id
    requires Exists(g, seeds, p)
  {
    match p
    case Cited(s, i) => Out(g, seeds[s])[i].target
    case Citing(s, i) => In(g, seeds[s])[i].source
    case SameAuthor(s, i, j) => In(g, Out(g, seeds[s])[i].target)[j].source
  }

  /** Its edges have the right kinds and it ends outside the seeds. */
  predicate Discovers(g: Graph, seeds: seq<Id>, p: Path) {
    && Exists(g, seeds, p)
    && (match p
        case Cited(s, i) => Out(g, seeds[s])[i].kind == CITES
        case Citing(s, i) => In(g, seeds[s])[i].kind == CITES
        case SameAuthor(s, i, j) =>
          && Out(g, seeds[s])[i].kind == AUTHORED
          && In(g, Out(g, seeds[s])[i].target)[j].kind == AUTHORED)
    && End(g, seeds, p) !in seeds
  }

  function Hit(g: Graph, seeds: seq<Id>, p: Path): seq<Path> {
    if Discovers(g, seeds, p) then [p] else []
  }

  // the discovering paths in the order the loops meet them, the first `k` at each level

  function CitedPaths(g: Graph, seeds: seq<Id>, s: nat, k: nat): seq<Path> {
    if k == 0 then [] else CitedPaths(g, seeds, s, k - 1) + Hit(g, seeds, Cited(s, k - 1))
  }

  function CitingPaths(g: Graph, seeds: seq<Id>, s: nat, k: nat): seq<Path> {
    if k == 0 then [] else CitingPaths(g, seeds, s, k - 1) + Hit(g, seeds, Citing(s, k - 1))
  }

  function AuthorPaths(g: Graph, seeds: seq<Id>, s: nat, i: nat, k: nat): seq<Path> {
    if k == 0 then [] else AuthorPaths(g, seeds, s, i, k - 1) + Hit(g, seeds, SameAuthor(s, i, k - 1))
  }

  function SharedPaths(g: Graph, seeds: seq<Id>, s: nat, k: nat): seq<Path>
    requires s < |seeds| && k <= |Out(g, seeds[s])|
  {
    if k == 0 then []
    else SharedPaths(g, seeds, s, k - 1) + AuthorPaths(g, seeds, s, k - 1, |In(g, Out(g, seeds[s])[k - 1].target)|)
  }

  function SeedPaths(g: Graph, seeds: seq<Id>, s: nat): seq<Path>
    requires s < |seeds|
  {
    CitedPaths(g, seeds, s, |Out(g, seeds[s])|)
    + CitingPaths(g, seeds, s, |In(g, seeds[s])|)
    + SharedPaths(g, seeds, s, |Out(g, seeds[s])|)
  }

  function AllPaths(g: Graph, seeds: seq<Id>, k: nat): seq<Path>
    requires k <= |seeds|
  {
    if k == 0 then [] else AllPaths(g, seeds, k - 1) + SeedPaths(g, seeds, k - 1)
  }

  // ------------------------------------------------------------------ counting

  predicate AllDiscover(g: Graph, seeds: seq<Id>, ps: seq<Path>) {
    forall p | p in ps :: Discovers(g, seeds, p)
  }

  /** The nodes the paths lead to, in order. */
  function Ends(g: Graph, seeds: seq<Id>, ps: seq<Path>): (r: seq<Id>)
    requires AllDiscover(g, seeds, ps)
    ensures |r| == |ps|
  {
    if ps == [] then []
    else
      var p := ps[|ps| - 1];
      assert Discovers(g, seeds, p);
      Ends(g, seeds, ps[..|ps| - 1]) + [End(g, seeds, p)]
  }

  /** Each element at its first occurrence. */
  function Firsts(ends: seq<Id>): seq<Id> {
    if ends == [] then []
    else
      var front, last := Firsts(ends[..|ends| - 1]), ends[|ends| - 1];
      if last in front then front else front + [last]
  }

  /** What the two maps of the examples hold: for each discovered node its count and the path that found it
      first, with the keys in insertion order. */
  datatype Found = Found(keys: seq<Id>, count: map<Id, nat>, how: map<Id, Path>)

  function Add(f: Found, n: Id, p: Path): Found {
    Found(if n in f.count then f.keys else f.keys + [n],
          f.count[n := (if n in f.count then f.count[n] else 0) + 1],
          if n in f.how then f.how else f.how[n := p])
  }

  function Tallied(g: Graph, seeds: seq<Id>, ps: seq<Path>): Found
    requires AllDiscover(g, seeds, ps)
  {
    if ps == [] then Found([], map[], map[])
    else
      var p := ps[|ps| - 1];
      assert Discovers(g, seeds, p);
      Add(Tallied(g, seeds, ps[..|ps| - 1]), End(g, seeds, p), p)
  }

  lemma TalliedSnoc(g: Graph, seeds: seq<Id>, ps: seq<Path>, p: Path)
    requires AllDiscover(g, seeds, ps) && Discovers(g, seeds, p)
    ensures AllDiscover(g, seeds, ps + [p])
    ensures Tallied(g, seeds, ps + [p]) == Add(Tallied(g, seeds, ps), End(g, seeds, p), p)
  {
    assert (ps + [p])[..|ps|] == ps;
  }

  // ------------------------------------------------------------------ the loops

  /** An outgoing edge that is not an authorship leads to no co-author. */
  lemma {:induction false} NoAuthor(g: Graph, seeds: seq<Id>, s: nat, i: nat, k: nat)
    requires s < |seeds| && i < |Out(g, seeds[s])| && Out(g, seeds[s])[i].kind != AUTHORED
    ensures AuthorPaths(g, seeds, s, i, k) == []
  {
    if k > 0 { NoAuthor(g, seeds, s, i, k - 1); }
  }

  /** One meeting of a path: counted when it discovers, and only then. */
  lemma Met(g: Graph, seeds: seq<Id>, ps: seq<Path>, qs: seq<Path>, p: Path)
    requires AllDiscover(g, seeds, ps + qs)
    ensures AllDiscover(g, seeds, ps + (qs + Hit(g, seeds, p)))
    ensures Tallied(g, seeds, ps + (qs + Hit(g, seeds, p))) ==
            if Discovers(g, seeds, p) then Add(Tallied(g, seeds, ps + qs), End(g, seeds, p), p)
            else Tallied(g, seeds, ps + qs)
  {
    hide Discovers;
    assert ps + (qs + Hit(g, seeds, p)) == (ps + qs) + Hit(g, seeds, p);
    if Discovers(g, seeds, p) {
      TalliedSnoc(g, seeds, ps + qs, p);
    } else {
      assert (ps + qs) + [] == ps + qs;
    }
  }

  /** `found` is the tally of the paths met so far. */
  ghost predicate After(g: Graph, seeds: seq<Id>, ps: seq<Path>, found: Found) {
    AllDiscover(g, seeds, ps) && found == Tallied(g, seeds, ps)
  }

  /** The counting loops shared by the three examples. */
  method Discover(g: Graph, seeds: seq<Id>) returns (found: Found)
    ensures After(g, seeds, AllPaths(g, seeds, |seeds|), found)
  {
    hide Tallied, AllDiscover, After, CitedPaths, CitingPaths, SharedPaths, SeedPaths, In, Out;
    found := Found([], map[], map[]);
    var seedIds := set n | n in seeds;
    var s := 0;
    assert After(g, seeds, [], found) by { NothingMet(g, seeds); }
    while s < |seeds|
      invariant s <= |seeds|
      invariant After(g, seeds, AllPaths(g, seeds, s), found)
    {
      ghost var ps := AllPaths(g, seeds, s);
      found := FollowCited(g, seeds, seedIds, s, ps, found);
      found := FollowCiting(g, seeds, seedIds, s, ps + CitedPaths(g, seeds, s, |Out(g, seeds[s])|), found);
      found := FollowAuthors(g, seeds, seedIds, s,
        ps + CitedPaths(g, seeds, s, |Out(g, seeds[s])|) + CitingPaths(g, seeds, s, |In(g, seeds[s])|), found);
      SeedPathsJoin(g, seeds, ps, s);
      s := s + 1;
    }
  }

  lemma SeedPathsJoin(g: Graph, seeds: seq<Id>, ps: seq<Path>, s: nat)
    requires s < |seeds|
    ensures ps + CitedPaths(g, seeds, s, |Out(g, seeds[s])|) + CitingPaths(g, seeds, s, |In(g, seeds[s])|)
            + SharedPaths(g, seeds, s, |Out(g, seeds[s])|)
            == ps + SeedPaths(g, seeds, s)
  {
    hide CitedPaths, CitingPaths, SharedPaths;
  }

  lemma NothingMet(g: Graph, seeds: seq<Id>)
    ensures After(g, seeds, [], Found([], map[], map[]))
  {
  }

  method FollowCited(g: Graph, seeds: seq<Id>, seedIds: set<Id>, s: nat, ghost ps: seq<Path>, before: Found)
    returns (found: Found)
    requires s < |seeds| && After(g, seeds, ps, before) && seedIds == set n | n in seeds
    ensures After(g, seeds, ps + CitedPaths(g, seeds, s, |Out(g, seeds[s])|), found)
  {
    hide Tallied, AllDiscover;
    found := before;
    var outgoing := Out(g, seeds[s]);
    assert ps + [] == ps;
    for i := 0 to |outgoing|
      invariant After(g, seeds, ps + CitedPaths(g, seeds, s, i), found)
    {
      Met(g, seeds, ps, CitedPaths(g, seeds, s, i), Cited(s, i));
      if outgoing[i].kind == CITES && outgoing[i].target !in seedIds {
        found := Add(found, outgoing[i].target, Cited(s, i));
      }
    }
  }

  method FollowCiting(g: Graph, seeds: seq<Id>, seedIds: set<Id>, s: nat, ghost ps: seq<Path>, before: Found)
    returns (found: Found)
    requires s < |seeds| && After(g, seeds, ps, before) && seedIds == set n | n in seeds
    ensures After(g, seeds, ps + CitingPaths(g, seeds, s, |In(g, seeds[s])|), found)
  {
    hide Tallied, AllDiscover;
    found := before;
    var incoming := In(g, seeds[s]);
    assert ps + [] == ps;
    for i := 0 to |incoming|
      invariant After(g, seeds, ps + CitingPaths(g, seeds, s, i), found)
    {
      Met(g, seeds, ps, CitingPaths(g, seeds, s, i), Citing(s, i));
      if incoming[i].kind == CITES && incoming[i].source !in seedIds {
        found := Add(found, incoming[i].source, Citing(s, i));
      }
    }
  }

  method FollowAuthors(g: Graph, seeds: seq<Id>, seedIds: set<Id>, s: nat, ghost ps: seq<Path>, before: Found)
    returns (found: Found)
    requires s < |seeds| && After(g, seeds, ps, before) && seedIds == set n | n in seeds
    ensures After(g, seeds, ps + SharedPaths(g, seeds, s, |Out(g, seeds[s])|), found)
  {
    hide Tallied, AllDiscover, After;
    found := before;
    var outgoing := Out(g, seeds[s]);
    assert ps + [] == ps;
    for i := 0 to |outgoing|
      invariant After(g, seeds, ps + SharedPaths(g, seeds, s, i), found)
    {
      ghost var qs := SharedPaths(g, seeds, s, i);
      if outgoing[i].kind != AUTHORED {
        NoAuthor(g, seeds, s, i, |In(g, outgoing[i].target)|);
        assert qs + [] == qs;
        continue;
      }
      found := FollowCoAuthors(g, seeds, seedIds, s, i, ps + qs, found);
      Concat(ps, qs, AuthorPaths(g, seeds, s, i, |In(g, outgoing[i].target)|));
    }
  }

  lemma Concat(ps: seq<Path>, qs: seq<Path>, rs: seq<Path>)
    ensures (ps + qs) + rs == ps + (qs + rs)
  {
  }

  method FollowCoAuthors(g: Graph, seeds: seq<Id>, seedIds: set<Id>, s: nat, i: nat, ghost ps: seq<Path>, before: Found)
    returns (found: Found)
    requires s < |seeds| && After(g, seeds, ps, before) && seedIds == set n | n in seeds
    requires i < |Out(g, seeds[s])| && Out(g, seeds[s])[i].kind == AUTHORED
    ensures After(g, seeds, ps + AuthorPaths(g, seeds, s, i, |In(g, Out(g, seeds[s])[i].target)|), found)
  {
    hide Tallied, AllDiscover;
    found := before;
    var related := In(g, Out(g, seeds[s])[i].target);
    assert ps + [] == ps;
    for j := 0 to |related|
      invariant After(g, seeds, ps + AuthorPaths(g, seeds, s, i, j), found)
    {
      Met(g, seeds, ps, AuthorPaths(g, seeds, s, i, j), SameAuthor(s, i, j));
      if related[j].kind == AUTHORED && related[j].source !in seedIds {
        found := Add(found, related[j].source, SameAuthor(s, i, j));
      }
    }
  }

  // ------------------------------------------------------------------ what the tally means

  predicate Distinct<T(==)>(xs: seq<T>) {
    forall i, j | 0 <= i < j < |xs| :: xs[i] != xs[j]
  }

  lemma DistinctConcat<T>(xs: seq<T>, ys: seq<T>)
    requires Distinct(xs) && Distinct(ys) && forall x | x in xs :: x !in ys
    ensures Distinct(xs + ys)
  {
    forall i, j | 0 <= i < j < |xs + ys|
      ensures (xs + ys)[i] != (xs + ys)[j]
    {
      if i < |xs| <= j {
        assert xs[i] in xs && ys[j - |xs|] in ys;
      }
    }
  }

  lemma {:induction false} CitationsEnumerated(g: Graph, seeds: seq<Id>, s: nat, k: nat)
    ensures forall p :: p in CitedPaths(g, seeds, s, k) <==> p.Cited? && p.s == s && p.i < k && Discovers(g, seeds, p)
    ensures forall p :: p in CitingPaths(g, seeds, s, k) <==> p.Citing? && p.s == s && p.i < k && Discovers(g, seeds, p)
    ensures Distinct(CitedPaths(g, seeds, s, k)) && Distinct(CitingPaths(g, seeds, s, k))
  {
    hide Discovers, Distinct;
    if k > 0 {
      CitationsEnumerated(g, seeds, s, k - 1);
      HitDistinct(g, seeds, Cited(s, k - 1));
      HitDistinct(g, seeds, Citing(s, k - 1));
      DistinctConcat(CitedPaths(g, seeds, s, k - 1), Hit(g, seeds, Cited(s, k - 1)));
      DistinctConcat(CitingPaths(g, seeds, s, k - 1), Hit(g, seeds, Citing(s, k - 1)));
    } else {
      NoneDistinct();
    }
  }

  lemma HitDistinct(g: Graph, seeds: seq<Id>, p: Path)
    ensures Distinct(Hit(g, seeds, p))
  {
  }

  lemma NoneDistinct()
    ensures Distinct<Path>([])
  {
  }

  lemma {:induction false} AuthorsEnumerated(g: Graph, seeds: seq<Id>, s: nat, i: nat, k: nat)
    ensures forall p :: p in AuthorPaths(g, seeds, s, i, k) <==>
                        p.SameAuthor? && p.s == s && p.i == i && p.j < k && Discovers(g, seeds, p)
    ensures Distinct(AuthorPaths(g, seeds, s, i, k))
  {
    hide Discovers, Distinct;
    if k > 0 {
      AuthorsEnumerated(g, seeds, s, i, k - 1);
      HitDistinct(g, seeds, SameAuthor(s, i, k - 1));
      DistinctConcat(AuthorPaths(g, seeds, s, i, k - 1), Hit(g, seeds, SameAuthor(s, i, k - 1)));
    } else {
      NoneDistinct();
    }
  }

  lemma AuthorsAll(g: Graph, seeds: seq<Id>, s: nat, i: nat)
    requires s < |seeds| && i < |Out(g, seeds[s])|
    ensures var ps := AuthorPaths(g, seeds, s, i, |In(g, Out(g, seeds[s])[i].target)|);
            Distinct(ps) && forall p :: p in ps <==> p.SameAuthor? && p.s == s && p.i == i && Discovers(g, seeds, p)
  {
    hide Distinct, AuthorPaths, End;
    AuthorsEnumerated(g, seeds, s, i, |In(g, Out(g, seeds[s])[i].target)|);
  }

  lemma {:induction false} SharedEnumerated(g: Graph, seeds: seq<Id>, s: nat, k: nat)
    requires s < |seeds| && k <= |Out(g, seeds[s])|
    ensures forall p :: p in SharedPaths(g, seeds, s, k) <==>
                        p.SameAuthor? && p.s == s && p.i < k && Discovers(g, seeds, p)
    ensures Distinct(SharedPaths(g, seeds, s, k))
  {
    hide Distinct, Discovers;
    if k > 0 {
      var n := |In(g, Out(g, seeds[s])[k - 1].target)|;
      SharedEnumerated(g, seeds, s, k - 1);
      AuthorsAll(g, seeds, s, k - 1);
      DistinctConcat(SharedPaths(g, seeds, s, k - 1), AuthorPaths(g, seeds, s, k - 1, n));
    } else {
      NoneDistinct();
    }
  }

  lemma SeedEnumerated(g: Graph, seeds: seq<Id>, s: nat)
    requires s < |seeds|
    ensures forall p :: p in SeedPaths(g, seeds, s) <==> p.s == s && Discovers(g, seeds, p)
    ensures Distinct(SeedPaths(g, seeds, s))
  {
    hide Distinct, CitedPaths, CitingPaths, SharedPaths, End;
    var o, i := |Out(g, seeds[s])|, |In(g, seeds[s])|;
    CitationsEnumerated(g, seeds, s, o);
    CitationsEnumerated(g, seeds, s, i);
    SharedEnumerated(g, seeds, s, o);
    DistinctConcat(CitedPaths(g, seeds, s, o), CitingPaths(g, seeds, s, i));
    DistinctConcat(CitedPaths(g, seeds, s, o) + CitingPaths(g, seeds, s, i), SharedPaths(g, seeds, s, o));
  }

  /** The loops meet every discovering path exactly once. */
  lemma {:induction false} PathsEnumerated(g: Graph, seeds: seq<Id>, k: nat)
    requires k <= |seeds|
    ensures forall p :: p in AllPaths(g, seeds, k) <==> p.s < k && Discovers(g, seeds, p)
    ensures Distinct(AllPaths(g, seeds, k))
  {
    hide Distinct, Discovers, SeedPaths;
    if k > 0 {
      PathsEnumerated(g, seeds, k - 1);
      SeedEnumerated(g, seeds, k - 1);
      DistinctConcat(AllPaths(g, seeds, k - 1), SeedPaths(g, seeds, k - 1));
    } else {
      NoneDistinct();
    }
  }

  /** The loops' order: seed by seed, and for each seed first along its outgoing citations, then along its incoming
      ones, then author by author. */
  predicate Sooner(p: Path, q: Path) {
    p.s < q.s ||
    (p.s == q.s &&
     match p
     case Cited(_, i) => !q.Cited? || i < q.i
     case Citing(_, i) => q.SameAuthor? || (q.Citing? && i < q.i)
     case SameAuthor(_, i, j) => q.SameAuthor? && (i < q.i || (i == q.i && j < q.j)))
  }

  predicate InOrder(ps: seq<Path>) {
    forall i, j | 0 <= i < j < |ps| :: Sooner(ps[i], ps[j])
  }

  lemma InOrderConcat(ps: seq<Path>, qs: seq<Path>)
    requires InOrder(ps) && InOrder(qs) && forall p, q | p in ps && q in qs :: Sooner(p, q)
    ensures InOrder(ps + qs)
  {
    hide Sooner;
    forall i, j | 0 <= i < j < |ps + qs|
      ensures Sooner((ps + qs)[i], (ps + qs)[j])
    {
      if i < |ps| <= j {
        assert ps[i] in ps && qs[j - |ps|] in qs;
      }
    }
  }

  lemma {:induction false} CitationsInOrder(g: Graph, seeds: seq<Id>, s: nat, k: nat)
    ensures InOrder(CitedPaths(g, seeds, s, k)) && InOrder(CitingPaths(g, seeds, s, k))
  {
    hide Discovers, InOrder;
    NoneInOrder();
    if k > 0 {
      var cited, citing := Cited(s, k - 1), Citing(s, k - 1);
      CitationsInOrder(g, seeds, s, k - 1);
      CitationsEnumerated(g, seeds, s, k - 1);
      HitInOrder(g, seeds, cited);
      HitInOrder(g, seeds, citing);
      InOrderConcat(CitedPaths(g, seeds, s, k - 1), Hit(g, seeds, cited));
      InOrderConcat(CitingPaths(g, seeds, s, k - 1), Hit(g, seeds, citing));
    }
  }

  lemma NoneInOrder()
    ensures InOrder([])
  {
  }

  lemma HitInOrder(g: Graph, seeds: seq<Id>, p: Path)
    ensures InOrder(Hit(g, seeds, p))
  {
    hide Discovers;
  }

  lemma {:induction false} AuthorsInOrder(g: Graph, seeds: seq<Id>, s: nat, i: nat, k: nat)
    ensures InOrder(AuthorPaths(g, seeds, s, i, k))
  {
    hide Discovers, InOrder;
    NoneInOrder();
    if k > 0 {
      var p := SameAuthor(s, i, k - 1);
      AuthorsInOrder(g, seeds, s, i, k - 1);
      AuthorsEnumerated(g, seeds, s, i, k - 1);
      HitInOrder(g, seeds, p);
      InOrderConcat(AuthorPaths(g, seeds, s, i, k - 1), Hit(g, seeds, p));
    }
  }

  lemma {:induction false} SharedInOrder(g: Graph, seeds: seq<Id>, s: nat, k: nat)
    requires s < |seeds| && k <= |Out(g, seeds[s])|
    ensures InOrder(SharedPaths(g, seeds, s, k))
  {
    hide Discovers, InOrder, AuthorPaths;
    NoneInOrder();
    if k > 0 {
      var n := |In(g, Out(g, seeds[s])[k - 1].target)|;
      SharedInOrder(g, seeds, s, k - 1);
      SharedEnumerated(g, seeds, s, k - 1);
      AuthorsInOrder(g, seeds, s, k - 1, n);
      AuthorsEnumerated(g, seeds, s, k - 1, n);
      InOrderConcat(SharedPaths(g, seeds, s, k - 1), AuthorPaths(g, seeds, s, k - 1, n));
    }
  }

  lemma SeedInOrder(g: Graph, seeds: seq<Id>, s: nat)
    requires s < |seeds|
    ensures InOrder(SeedPaths(g, seeds, s))
  {
    hide Discovers, InOrder, CitedPaths, CitingPaths, SharedPaths;
    var o, i := |Out(g, seeds[s])|, |In(g, seeds[s])|;
    CitationsInOrder(g, seeds, s, o);
    CitationsInOrder(g, seeds, s, i);
    CitationsEnumerated(g, seeds, s, o);
    CitationsEnumerated(g, seeds, s, i);
    SharedInOrder(g, seeds, s, o);
    SharedEnumerated(g, seeds, s, o);
    InOrderConcat(CitedPaths(g, seeds, s, o), CitingPaths(g, seeds, s, i));
    InOrderConcat(CitedPaths(g, seeds, s, o) + CitingPaths(g, seeds, s, i), SharedPaths(g, seeds, s, o));
  }

  /** They meet them in that order. */
  lemma {:induction false} PathsInOrder(g: Graph, seeds: seq<Id>, k: nat)
    requires k <= |seeds|
    ensures InOrder(AllPaths(g, seeds, k))
  {
    hide Discovers, InOrder, SeedPaths;
    NoneInOrder();
    if k > 0 {
      PathsInOrder(g, seeds, k - 1);
      PathsEnumerated(g, seeds, k - 1);
      SeedInOrder(g, seeds, k - 1);
      SeedEnumerated(g, seeds, k - 1);
      InOrderConcat(AllPaths(g, seeds, k - 1), SeedPaths(g, seeds, k - 1));
    }
  }

  /** The paths among `ps` that lead to `n`. */
  ghost function Reaching(g: Graph, seeds: seq<Id>, ps: seq<Path>, n: Id): set<Path>
    requires AllDiscover(g, seeds, ps)
  {
    set p | p in ps && LeadsTo(g, seeds, p, n)
  }

  predicate LeadsTo(g: Graph, seeds: seq<Id>, p: Path, n: Id) {
    Discovers(g, seeds, p) && End(g, seeds, p) == n
  }

  /** `f` counts the paths in `paths` for `n`, and labels it with one of them. */
  ghost predicate CountedBy(f: Found, n: Id, paths: set<Path>) {
    && f.count.Keys == f.how.Keys
    && (n in f.count <==> paths != {})
    && (n in f.count ==> f.count[n] == |paths| && f.how[n] in paths)
  }

  lemma CountOneMore(f: Found, n: Id, paths: set<Path>, end: Id, p: Path)
    requires CountedBy(f, n, paths) && p !in paths
    ensures CountedBy(Add(f, end, p), n, if end == n then paths + {p} else paths)
  {
  }

  /** The tally of distinct paths counts them, for every node. */
  lemma {:induction false} TallyCounts(g: Graph, seeds: seq<Id>, ps: seq<Path>, n: Id)
    requires AllDiscover(g, seeds, ps) && Distinct(ps)
    ensures CountedBy(Tallied(g, seeds, ps), n, Reaching(g, seeds, ps, n))
    decreases |ps|
  {
    hide Tallied, Discovers, Exists, End, CountedBy, Add;
    if ps == [] {
      NothingMet(g, seeds);
      NothingCounted(n);
      assert Reaching(g, seeds, ps, n) == {};
    } else {
      var k := |ps| - 1;
      var p, front := ps[k], ps[..k];
      assert ps == front + [p];
      assert p in ps && Discovers(g, seeds, p);
      assert p !in front;
      TallyCounts(g, seeds, front, n);
      TalliedSnoc(g, seeds, front, p);
      ReachingSnoc(g, seeds, front, p, n);
      hide Reaching;
      DiscovererExists(g, seeds, p);
      CountOneMore(Tallied(g, seeds, front), n, Reaching(g, seeds, front, n), End(g, seeds, p), p);
    }
  }

  lemma DiscovererExists(g: Graph, seeds: seq<Id>, p: Path)
    requires Discovers(g, seeds, p)
    ensures Exists(g, seeds, p)
  {
  }

  lemma NothingCounted(n: Id)
    ensures CountedBy(Found([], map[], map[]), n, {})
  {
  }

  lemma ReachingSnoc(g: Graph, seeds: seq<Id>, front: seq<Path>, p: Path, n: Id)
    requires AllDiscover(g, seeds, front + [p]) && AllDiscover(g, seeds, front) && p !in front && Discovers(g, seeds, p)
    ensures Reaching(g, seeds, front + [p], n)
         == if End(g, seeds, p) == n then Reaching(g, seeds, front, n) + {p} else Reaching(g, seeds, front, n)
    ensures p !in Reaching(g, seeds, front, n)
  {
    hide Discovers, Exists, End;
  }

  /** Expansion counts exactly: a node is discovered when some path from a seed leads to it, which makes it
      no seed itself, and its count is the number of such paths. */
  lemma ExpansionCounts(g: Graph, seeds: seq<Id>, found: Found, n: Id) returns (paths: set<Path>)
    requires After(g, seeds, AllPaths(g, seeds, |seeds|), found)
    ensures forall p :: p in paths <==> LeadsTo(g, seeds, p, n)
    ensures n in found.count <==> paths != {}
    ensures n in found.count ==> found.count[n] == |paths| && n in found.how && found.how[n] in paths && n !in seeds
  {
    hide Tallied, Distinct, Exists, End;
    var ps := AllPaths(g, seeds, |seeds|);
    PathsEnumerated(g, seeds, |seeds|);
    TallyCounts(g, seeds, ps, n);
    paths := Reaching(g, seeds, ps, n);
    forall p | LeadsTo(g, seeds, p, n)
      ensures p in ps
    {
      SeedInRange(g, seeds, p);
    }
  }

  /** What the discovered nodes are, by the edges alone: papers outside the seeds that a seed cites, that cite a seed,
      or that share an author with one. */
  lemma DiscoveredExactly(g: Graph, seeds: seq<Id>, found: Found, n: Id)
    requires After(g, seeds, AllPaths(g, seeds, |seeds|), found)
    ensures n in found.count <==> n !in seeds && exists seed | seed in seeds :: Near(g, seed, n)
  {
    hide After, AllPaths;
    var paths := ExpansionCounts(g, seeds, found, n);
    if paths != {} {
      var p :| p in paths;
      NearByPath(g, seeds, p, n);
      assert seeds[p.s] in seeds;
    }
    if n !in seeds && exists seed | seed in seeds :: Near(g, seed, n) {
      var seed :| seed in seeds && Near(g, seed, n);
      var p := PathToNear(g, seeds, seed, n);
      assert p in paths;
    }
  }

  /** The node is one citation away, or shares an author. */
  ghost predicate Near(g: Graph, seed: Id, n: Id) {
    || (exists e | e in Out(g, seed) :: e.kind == "CITES" && e.target == n)
    || (exists e | e in In(g, seed) :: e.kind == "CITES" && e.source == n)
    || (exists e | e in Out(g, seed) :: e.kind == "AUTHORED_BY" && Wrote(g, e.target, n))
  }

  ghost predicate Wrote(g: Graph, author: Id, n: Id) {
    exists f | f in In(g, author) :: f.kind == "AUTHORED_BY" && f.source == n
  }

  lemma NearByPath(g: Graph, seeds: seq<Id>, p: Path, n: Id)
    requires LeadsTo(g, seeds, p, n)
    ensures p.s < |seeds| && Near(g, seeds[p.s], n) && n !in seeds
  {
    var seed := seeds[p.s];
    match p
    case Cited(s, i) => assert Out(g, seed)[i] in Out(g, seed);
    case Citing(s, i) => assert In(g, seed)[i] in In(g, seed);
    case SameAuthor(s, i, j) =>
      var author := Out(g, seed)[i].target;
      assert Out(g, seed)[i] in Out(g, seed) && In(g, author)[j] in In(g, author);
  }

  lemma PathToNear(g: Graph, seeds: seq<Id>, seed: Id, n: Id) returns (p: Path)
    requires seed in seeds && n !in seeds && Near(g, seed, n)
    ensures LeadsTo(g, seeds, p, n)
  {
    var s :| 0 <= s < |seeds| && seeds[s] == seed;
    if exists e | e in Out(g, seed) :: e.kind == "CITES" && e.target == n {
      var i :| 0 <= i < |Out(g, seed)| && Out(g, seed)[i].kind == "CITES" && Out(g, seed)[i].target == n;
      p := Cited(s, i);
    } else if exists e | e in In(g, seed) :: e.kind == "CITES" && e.source == n {
      var i :| 0 <= i < |In(g, seed)| && In(g, seed)[i].kind == "CITES" && In(g, seed)[i].source == n;
      p := Citing(s, i);
    } else {
      var i :| 0 <= i < |Out(g, seed)| && Out(g, seed)[i].kind == "AUTHORED_BY" && Wrote(g, Out(g, seed)[i].target, n);
      var author := Out(g, seed)[i].target;
      var j :| 0 <= j < |In(g, author)| && In(g, author)[j].kind == "AUTHORED_BY" && In(g, author)[j].source == n;
      p := SameAuthor(s, i, j);
    }
  }

  lemma SeedInRange(g: Graph, seeds: seq<Id>, p: Path)
    requires Discovers(g, seeds, p)
    ensures p.s < |seeds|
  {
  }

  /** A node keeps the label of the path that was met first. */
  lemma {:induction false} FirstIsKept(g: Graph, seeds: seq<Id>, ps: seq<Path>, i: nat, n: Id)
    requires AllDiscover(g, seeds, ps) && i < |ps| && LeadsTo(g, seeds, ps[i], n)
    requires forall j | 0 <= j < i :: !LeadsTo(g, seeds, ps[j], n)
    ensures n in Tallied(g, seeds, ps).how && Tallied(g, seeds, ps).how[n] == ps[i]
    decreases |ps|
  {
    hide Discovers, Exists, End;
    var k := |ps| - 1;
    var p, front := ps[k], ps[..k];
    assert ps == front + [p] && p in ps;
    TalliedSnoc(g, seeds, front, p);
    if i < k {
      FirstIsKept(g, seeds, front, i, n);
    } else {
      NotYetFound(g, seeds, front, n);
    }
  }

  lemma {:induction false} NotYetFound(g: Graph, seeds: seq<Id>, ps: seq<Path>, n: Id)
    requires AllDiscover(g, seeds, ps) && forall j | 0 <= j < |ps| :: !LeadsTo(g, seeds, ps[j], n)
    ensures n !in Tallied(g, seeds, ps).how
    decreases |ps|
  {
    hide Discovers, Exists, End;
    if ps != [] {
      var k := |ps| - 1;
      assert ps == ps[..k] + [ps[k]] && ps[k] in ps;
      NotYetFound(g, seeds, ps[..k], n);
      TalliedSnoc(g, seeds, ps[..k], ps[k]);
      assert !LeadsTo(g, seeds, ps[k], n);
    }
  }

  /** The keys are the nodes in the order their first paths were met. */
  lemma {:induction false} KeysAreFirsts(g: Graph, seeds: seq<Id>, ps: seq<Path>)
    requires AllDiscover(g, seeds, ps)
    ensures var f := Tallied(g, seeds, ps);
            && f.keys == Firsts(Ends(g, seeds, ps))
            && (forall n :: n in f.keys <==> n in f.count)
            && f.count.Keys == f.how.Keys && Distinct(f.keys)
    decreases |ps|
  {
    if ps != [] {
      var p, front := ps[|ps| - 1], ps[..|ps| - 1];
      assert p in ps && Discovers(g, seeds, p);
      hide Discovers;
      KeysAreFirsts(g, seeds, front);
      var ends := Ends(g, seeds, ps);
      assert ends[..|ends| - 1] == Ends(g, seeds, front);
    }
  }

  /** First occurrences, by what they keep: every element once, and those met before stay in front. */
  lemma {:induction false} FirstsExact(xs: seq<Id>, ys: seq<Id>)
    ensures (forall n :: n in Firsts(xs) <==> n in xs) && Distinct(Firsts(xs))
    ensures Firsts(xs) <= Firsts(xs + ys)
    decreases |xs| + |ys|
  {
    if ys != [] {
      FirstsExact(xs, ys[..|ys| - 1]);
      assert (xs + ys)[..|xs + ys| - 1] == xs + ys[..|ys| - 1];
    } else {
      assert xs + ys == xs;
      if xs != [] {
        FirstsExact(xs[..|xs| - 1], []);
        assert xs == xs[..|xs| - 1] + [xs[|xs| - 1]];
      }
    }
  }

  // ------------------------------------------------------------------ ordering

  /** More paths first; among equals, the smaller tie-breaker: the node id in Go, the insertion position,
      which a stable sort keeps, in Python and TypeScript. */
  predicate Better(count: map<Id, nat>, tie: map<Id, nat>, a: Id, b: Id)
    requires a in count && b in count && count.Keys == tie.Keys
  {
    count[a] > count[b] || (count[a] == count[b] && tie[a] < tie[b])
  }

  predicate TieBreaker(count: map<Id, nat>, tie: map<Id, nat>) {
    count.Keys == tie.Keys && forall a, b | a in tie && b in tie && a != b :: tie[a] != tie[b]
  }

  /** No node after one that fewer paths lead to, nor, among equals, after one with a larger tie-breaker. */
  predicate Ascending(count: map<Id, nat>, tie: map<Id, nat>, xs: seq<Id>)
    requires TieBreaker(count, tie)
  {
    && (forall x | x in xs :: x in count)
    && (forall i, j | 0 <= i < j < |xs| ::
          count[xs[i]] > count[xs[j]] || (count[xs[i]] == count[xs[j]] && tie[xs[i]] < tie[xs[j]]))
  }

  /** Insertion sort, standing for the library's. */
  function Insert(count: map<Id, nat>, tie: map<Id, nat>, x: Id, xs: seq<Id>): (r: seq<Id>)
    requires TieBreaker(count, tie) && x in count && forall y | y in xs :: y in count
    ensures forall y :: y in r <==> y in xs || y == x
  {
    if xs == [] || Better(count, tie, x, xs[0]) then [x] + xs
    else [xs[0]] + Insert(count, tie, x, xs[1..])
  }

  function Sorted(count: map<Id, nat>, tie: map<Id, nat>, order: seq<Id>): (r: seq<Id>)
    requires TieBreaker(count, tie) && forall y | y in order :: y in count
    ensures forall y :: y in r <==> y in order
  {
    if order == [] then []
    else Insert(count, tie, order[|order| - 1], Sorted(count, tie, order[..|order| - 1]))
  }

  lemma {:induction false} InsertAscends(count: map<Id, nat>, tie: map<Id, nat>, x: Id, xs: seq<Id>)
    requires TieBreaker(count, tie) && x in count && Ascending(count, tie, xs) && x !in xs
    ensures Ascending(count, tie, Insert(count, tie, x, xs))
  {
    if xs != [] && !Better(count, tie, x, xs[0]) {
      assert xs[0] in xs;
      assert Better(count, tie, xs[0], x);
      InsertAscends(count, tie, x, xs[1..]);
      var r := Insert(count, tie, x, xs[1..]);
      forall j | 0 <= j < |r|
        ensures Better(count, tie, xs[0], r[j])
      {
        assert r[j] in r;
        if r[j] != x {
          var i :| 1 <= i < |xs| && xs[i] == r[j];
        }
      }
    }
  }

  lemma {:induction false} SortedAscends(count: map<Id, nat>, tie: map<Id, nat>, order: seq<Id>)
    requires TieBreaker(count, tie) && (forall y | y in order :: y in count) && Distinct(order)
    ensures Ascending(count, tie, Sorted(count, tie, order))
    decreases |order|
  {
    if order != [] {
      var k := |order| - 1;
      SortedAscends(count, tie, order[..k]);
      assert order[k] !in order[..k];
      InsertAscends(count, tie, order[k], Sorted(count, tie, order[..k]));
    }
  }

  /** Ascending sequences of the same nodes are equal. */
  lemma {:induction false} AscendingUnique(count: map<Id, nat>, tie: map<Id, nat>, xs: seq<Id>, ys: seq<Id>)
    requires TieBreaker(count, tie) && Ascending(count, tie, xs) && Ascending(count, tie, ys)
    requires forall n :: n in xs <==> n in ys
    ensures xs == ys
    decreases |xs|
  {
    if xs == [] {
      HasElement(ys);
    } else {
      assert xs[0] in xs;
      var j :| 0 <= j < |ys| && ys[j] == xs[0];
      assert ys[0] in ys;
      var i :| 0 <= i < |xs| && xs[i] == ys[0];
      assert j == 0;
      forall n
        ensures n in xs[1..] <==> n in ys[1..]
      {
        assert n in xs[1..] <==> n in xs && n != xs[0] by { Tail(count, tie, xs, n); }
        assert n in ys[1..] <==> n in ys && n != ys[0] by { Tail(count, tie, ys, n); }
      }
      AscendingUnique(count, tie, xs[1..], ys[1..]);
      assert xs == [xs[0]] + xs[1..] && ys == [ys[0]] + ys[1..];
    }
  }

  lemma HasElement(xs: seq<Id>)
    ensures xs == [] || exists x :: x in xs
  {
    if xs != [] { assert xs[0] in xs; }
  }

  lemma Tail(count: map<Id, nat>, tie: map<Id, nat>, xs: seq<Id>, n: Id)
    requires xs != [] && TieBreaker(count, tie) && Ascending(count, tie, xs)
    ensures n in xs[1..] <==> n in xs && n != xs[0]
  {
    assert xs == [xs[0]] + xs[1..];
    if n in xs[1..] {
      var k :| 0 <= k < |xs| - 1 && xs[1..][k] == n;
      assert Better(count, tie, xs[0], xs[k + 1]);
    }
  }

  /** The Go output is the one list of the discovered nodes by paths descending, then id ascending: the order
      in which the map is iterated leaves no trace, nor does the sorting algorithm. */
  lemma OrderIsHidden(count: map<Id, nat>, tie: map<Id, nat>, order: seq<Id>, other: seq<Id>)
    requires TieBreaker(count, tie) && Distinct(order)
    requires (forall n :: n in order <==> n in count) && (forall n :: n in other <==> n in count)
    requires Ascending(count, tie, other)
    ensures other == Sorted(count, tie, order)
  {
    SortedAscends(count, tie, order);
    AscendingUnique(count, tie, other, Sorted(count, tie, order));
  }

  function Ids(count: map<Id, nat>): map<Id, nat> {
    map n | n in count :: n
  }

  function Positions(keys: seq<Id>): (r: map<Id, nat>)
    ensures forall n :: n in r <==> n in keys
    ensures Distinct(keys) ==> forall i | 0 <= i < |keys| :: keys[i] in r && r[keys[i]] == i
  {
    if keys == [] then map[] else Positions(keys[..|keys| - 1])[keys[|keys| - 1] := |keys| - 1]
  }

  /** Both ways of breaking ties order the discovered nodes completely, so each binding's output is the one
      list `OrderIsHidden` speaks of. */
  lemma TiesAreBroken(g: Graph, seeds: seq<Id>, found: Found)
    requires After(g, seeds, AllPaths(g, seeds, |seeds|), found)
    ensures TieBreaker(found.count, Ids(found.count))
    ensures TieBreaker(found.count, Positions(found.keys))
    ensures Distinct(found.keys) && forall n :: n in found.keys <==> n in found.count
  {
    hide Tallied, Distinct, TieBreaker, Positions, Ids, AllPaths, Discovers;
    KeysAreFirsts(g, seeds, AllPaths(g, seeds, |seeds|));
    BothBreakTies(found.keys, found.count);
  }

  lemma BothBreakTies(keys: seq<Id>, count: map<Id, nat>)
    requires Distinct(keys) && forall n :: n in keys <==> n in count
    ensures TieBreaker(count, Ids(count)) && TieBreaker(count, Positions(keys))
  {
    hide Positions;
    PositionsTell(keys);
    assert Positions(keys).Keys == count.Keys;
  }

  lemma PositionsTell(keys: seq<Id>)
    requires Distinct(keys)
    ensures forall a, b | a in keys && b in keys && a != b :: Positions(keys)[a] != Positions(keys)[b]
  {
    forall a, b | a in keys && b in keys && a != b
      ensures Positions(keys)[a] != Positions(keys)[b]
    {
      var i :| 0 <= i < |keys| && keys[i] == a;
      var j :| 0 <= j < |keys| && keys[j] == b;
    }
  }

  // ------------------------------------------------------------------ merging

  datatype Via = Unset | Vector | FullText | Expansion(how: Path)

  datatype Paper = Paper(node: Id, via: Via)

  function Nodes(ps: seq<Paper>): set<Id> {
    set p | p in ps :: p.node
  }

  function Relabelled(ps: seq<Paper>, via: Via): (r: seq<Paper>)
    ensures |r| == |ps| && forall i | 0 <= i < |ps| :: r[i] == ps[i].(via := via)
  {
    seq(|ps|, i requires 0 <= i < |ps| => ps[i].(via := via))
  }

  /** The papers without those whose node has come before. */
  function FirstOccurrences(ps: seq<Paper>): seq<Paper> {
    if ps == [] then []
    else
      var front, last := ps[..|ps| - 1], ps[|ps| - 1];
      FirstOccurrences(front) + if last.node in Nodes(front) then [] else [last]
  }

  /** The three merging loops, one after the other. */
  method Merge(vector: seq<Paper>, expanded: seq<Paper>, fullText: seq<Paper>) returns (merged: seq<Paper>)
    ensures merged == FirstOccurrences(Relabelled(vector, Vector) + expanded + Relabelled(fullText, FullText))
  {
    hide FirstOccurrences, Nodes;
    var seen: set<Id> := {};
    assert FirstOccurrences([]) == [] && Nodes([]) == {} by { NoPapers(); }
    merged, seen := AddNew([], [], seen, Relabelled(vector, Vector));
    assert [] + Relabelled(vector, Vector) == Relabelled(vector, Vector);
    merged, seen := AddNew(Relabelled(vector, Vector), merged, seen, expanded);
    merged, seen := AddNew(Relabelled(vector, Vector) + expanded, merged, seen, Relabelled(fullText, FullText));
  }

  lemma NoPapers()
    ensures FirstOccurrences([]) == [] && Nodes([]) == {}
  {
  }

  method AddNew(ghost before: seq<Paper>, list: seq<Paper>, known: set<Id>, papers: seq<Paper>)
    returns (merged: seq<Paper>, seen: set<Id>)
    requires list == FirstOccurrences(before) && known == Nodes(before)
    ensures merged == FirstOccurrences(before + papers) && seen == Nodes(before + papers)
  {
    hide FirstOccurrences, Nodes;
    merged, seen := list, known;
    assert before + papers[..0] == before;
    for i := 0 to |papers|
      invariant merged == FirstOccurrences(before + papers[..i]) && seen == Nodes(before + papers[..i])
    {
      var p := papers[i];
      Snoc(before + papers[..i], p);
      assert (before + papers[..i]) + [p] == before + papers[..i + 1];
      if p.node !in seen {
        merged := merged + [p];
        seen := seen + {p.node};
      }
    }
    assert papers[..|papers|] == papers;
  }

  lemma Snoc(ps: seq<Paper>, p: Paper)
    ensures FirstOccurrences(ps + [p]) == FirstOccurrences(ps) + if p.node in Nodes(ps) then [] else [p]
    ensures Nodes(ps + [p]) == Nodes(ps) + {p.node}
  {
    assert (ps + [p])[..|ps|] == ps;
    assert Nodes(ps + [p]) == Nodes(ps) + {p.node} by {
      assert p in ps + [p];
      assert forall q :: q in ps + [p] <==> q in ps || q == p;
    }
  }

  predicate DistinctNodes(ps: seq<Paper>) {
    forall i, j | 0 <= i < j < |ps| :: ps[i].node != ps[j].node
  }

  /** First occurrences lose no node and repeat none. */
  lemma {:induction false} FirstOccurrencesExact(ps: seq<Paper>)
    ensures DistinctNodes(FirstOccurrences(ps)) && Nodes(FirstOccurrences(ps)) == Nodes(ps)
    ensures |FirstOccurrences(ps)| == |Nodes(ps)|
    decreases |ps|
  {
    hide FirstOccurrences, Nodes, DistinctNodes;
    NoPapers();
    NoneRepeated([]);
    if ps != [] {
      var front, last := ps[..|ps| - 1], ps[|ps| - 1];
      assert ps == front + [last];
      FirstOccurrencesExact(front);
      Snoc(front, last);
      Snoc(FirstOccurrences(front), last);
      NewNode(FirstOccurrences(front), last);
      assert FirstOccurrences(front) + [] == FirstOccurrences(front);
      assert last.node in Nodes(front) ==> Nodes(front) + {last.node} == Nodes(front);
    }
  }

  lemma NoneRepeated(ps: seq<Paper>)
    ensures |ps| == 0 ==> DistinctNodes(ps)
  {
  }

  lemma NewNode(ps: seq<Paper>, p: Paper)
    requires DistinctNodes(ps)
    ensures p.node !in Nodes(ps) ==> DistinctNodes(ps + [p])
  {
    if p.node !in Nodes(ps) {
      forall i | 0 <= i < |ps|
        ensures ps[i].node != p.node
      {
        assert ps[i] in ps;
      }
    }
  }

  /** Papers whose nodes are distinct are all kept, in place. */
  lemma {:induction false} DistinctUnchanged(ps: seq<Paper>)
    requires DistinctNodes(ps)
    ensures FirstOccurrences(ps) == ps
    decreases |ps|
  {
    if ps != [] {
      var front, last := ps[..|ps| - 1], ps[|ps| - 1];
      assert ps == front + [last];
      DistinctUnchanged(front);
    }
  }

  /** What comes later never displaces what came before. */
  lemma {:induction false} PrefixKept(ps: seq<Paper>, qs: seq<Paper>)
    ensures FirstOccurrences(ps) <= FirstOccurrences(ps + qs)
    decreases |qs|
  {
    if qs == [] {
      assert ps + qs == ps;
    } else {
      var front, last := qs[..|qs| - 1], qs[|qs| - 1];
      PrefixKept(ps, front);
      assert ps + qs == (ps + front) + [last];
      Snoc(ps + front, last);
    }
  }

  /** Merging keeps distinct vector results whole and first, and grows them by one paper for every node that
      expansion or full-text search found and vector search did not. */
  lemma MergeGrowth(vector: seq<Paper>, expanded: seq<Paper>, fullText: seq<Paper>, merged: seq<Paper>)
    requires DistinctNodes(vector)
    requires merged == FirstOccurrences(Relabelled(vector, Vector) + expanded + Relabelled(fullText, FullText))
    ensures Relabelled(vector, Vector) <= merged && DistinctNodes(merged)
    ensures Nodes(merged) == Nodes(vector) + Nodes(expanded) + Nodes(fullText)
    ensures |merged| - |vector| == |(Nodes(expanded) + Nodes(fullText)) - Nodes(vector)|
  {
    hide FirstOccurrences, Nodes, DistinctNodes;
    var v, f := Relabelled(vector, Vector), Relabelled(fullText, FullText);
    assert DistinctNodes(v) by { SameNodes(vector, Vector); }
    var all := v + expanded + f;
    FirstOccurrencesExact(all);
    FirstOccurrencesExact(v);
    DistinctUnchanged(v);
    assert all == v + (expanded + f);
    PrefixKept(v, expanded + f);
    RelabelledNodes(vector, Vector);
    RelabelledNodes(fullText, FullText);
    NodesConcat(v + expanded, f);
    NodesConcat(v, expanded);
    var found := (Nodes(expanded) + Nodes(fullText)) - Nodes(vector);
    assert Nodes(all) == Nodes(vector) + found;
  }

  /** What is kept is kept as it first came. */
  lemma {:induction false} KeptAsFirst(ps: seq<Paper>, p: Paper)
    requires p in FirstOccurrences(ps)
    ensures exists i | 0 <= i < |ps| :: ps[i] == p && p.node !in Nodes(ps[..i])
    decreases |ps|
  {
    hide Nodes;
    var k := |ps| - 1;
    var front, last := ps[..k], ps[k];
    if p in FirstOccurrences(front) {
      KeptAsFirst(front, p);
      var i :| 0 <= i < |front| && front[i] == p && p.node !in Nodes(front[..i]);
      assert front[..i] == ps[..i] && ps[i] == p;
    } else {
      assert ps[k] == p && ps[..k] == front;
    }
  }

  /** Each merged paper says which search it came from first: vector search, then expansion, which keeps its own
      account of how it got there, then full-text search. */
  lemma MergeLabels(vector: seq<Paper>, expanded: seq<Paper>, fullText: seq<Paper>, p: Paper)
    requires p in FirstOccurrences(Relabelled(vector, Vector) + expanded + Relabelled(fullText, FullText))
    ensures p.node in Nodes(vector) ==> p.via == Vector
    ensures p.node in Nodes(expanded) - Nodes(vector) ==> p in expanded
    ensures p.node !in Nodes(vector) + Nodes(expanded) ==> p.via == FullText && p.node in Nodes(fullText)
  {
    hide FirstOccurrences, Nodes;
    var v, f := Relabelled(vector, Vector), Relabelled(fullText, FullText);
    KeptAsFirst(v + expanded + f, p);
    var all := v + expanded + f;
    var i :| 0 <= i < |all| && all[i] == p && p.node !in Nodes(all[..i]);
    RelabelledNodes(vector, Vector);
    RelabelledNodes(fullText, FullText);
    if i < |v| {
      assert all[i] == v[i];
      NodeOf(v, i);
    } else if i < |v| + |expanded| {
      assert all[i] == expanded[i - |v|];
      assert all[..i] == v + expanded[..i - |v|];
      NodesConcat(v, expanded[..i - |v|]);
      NodeOf(expanded, i - |v|);
    } else {
      var j := i - |v| - |expanded|;
      assert all[i] == f[j];
      assert all[..i] == (v + expanded) + f[..j];
      NodesConcat(v + expanded, f[..j]);
      NodesConcat(v, expanded);
      NodeOf(f, j);
    }
  }

  lemma NodeOf(ps: seq<Paper>, i: nat)
    requires i < |ps|
    ensures ps[i].node in Nodes(ps)
  {
    assert ps[i] in ps;
  }

  lemma SameNodes(ps: seq<Paper>, via: Via)
    requires DistinctNodes(ps)
    ensures DistinctNodes(Relabelled(ps, via))
  {
  }

  lemma RelabelledNodes(ps: seq<Paper>, via: Via)
    ensures Nodes(Relabelled(ps, via)) == Nodes(ps)
  {
    var r := Relabelled(ps, via);
    forall n | n in Nodes(ps)
      ensures n in Nodes(r)
    {
      var i :| 0 <= i < |ps| && ps[i].node == n;
      assert r[i] in r;
    }
    forall n | n in Nodes(r)
      ensures n in Nodes(ps)
    {
      var i :| 0 <= i < |r| && r[i].node == n;
      assert ps[i] in ps;
    }
  }

  lemma NodesConcat(ps: seq<Paper>, qs: seq<Paper>)
    ensures Nodes(ps + qs) == Nodes(ps) + Nodes(qs)
  {
    assert forall p :: p in ps + qs <==> p in ps || p in qs;
  }
}
