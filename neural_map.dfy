/** The project graph behind the 3D project map: for every pair of projects
    i < j there is an edge carrying the tags of project i that match some
    tag of project j, compared case-insensitively. Only the edge list is
    modelled; the scene that draws it is not. */
module NeuralMap {

  datatype Project = Project(id: string, title: string, tags: seq<string>)

  datatype Connection = Connection(from: int, to: int, shared: seq<string>)

  const Projects: seq<Project> := [
    Project("cpa", "Customer Purchase Analysis", ["Python", "MySQL", "Scikit-learn", "Power BI"]),
    Project("autonote", "AutoNote", ["Python", "Flask", "Gemini API", "JavaScript"]),
    Project("urlshort", "Modern URL Shortener", ["React", "TypeScript", "Material-UI", "Vite"])
  ]

  // ---------------------------------------------------------------------
  // Case-insensitive tag comparison (ASCII lower-casing).

  function LowerChar(c: char): char {
    if 'A' <= c <= 'Z' then (c as int + 32) as char else c
  }

  function Lower(s: string): string {
    seq(|s|, i requires 0 <= i < |s| => LowerChar(s[i]))
  }

  predicate SameTag(a: string, b: string) {
    Lower(a) == Lower(b)
  }

  /** tags.some(t2 => lower(t2) == lower(t)) */
  predicate AnyMatch(t: string, tags: seq<string>)
    decreases |tags|
  {
    |tags| > 0 && (SameTag(tags[0], t) || AnyMatch(t, tags[1..]))
  }

  lemma {:induction false} AnyMatchIsSome(t: string, tags: seq<string>)
    ensures AnyMatch(t, tags) <==> exists k :: 0 <= k < |tags| && SameTag(tags[k], t)
    decreases |tags|
  {
    if |tags| > 0 {
      AnyMatchIsSome(t, tags[1..]);
      if AnyMatch(t, tags[1..]) {
        var k :| 0 <= k < |tags[1..]| && SameTag(tags[1..][k], t);
        assert SameTag(tags[k + 1], t);
      }
      if exists k :: 0 <= k < |tags| && SameTag(tags[k], t) {
        var k :| 0 <= k < |tags| && SameTag(tags[k], t);
        if k > 0 {
          assert SameTag(tags[1..][k - 1], t);
        }
      }
    }
  }

  /** tags.filter(t => AnyMatch(t, other)) */
  function SharedTags(tags: seq<string>, other: seq<string>): seq<string>
    decreases |tags|
  {
    if |tags| == 0 then []
    else (if AnyMatch(tags[0], other) then [tags[0]] else []) + SharedTags(tags[1..], other)
  }

  /** a keeps some of the elements of b, in the order b has them. */
  predicate Subsequence(a: seq<string>, b: seq<string>)
    decreases |b|
  {
    if |a| == 0 then true
    else if |b| == 0 then false
    else (a[0] == b[0] && Subsequence(a[1..], b[1..])) || Subsequence(a, b[1..])
  }

  /** The shared tags are exactly the tags of the first list, in their order
      and as often as they occur there, that match some tag of the second. */
  lemma {:induction false} SharedTagsSpec(tags: seq<string>, other: seq<string>)
    ensures Subsequence(SharedTags(tags, other), tags)
    ensures forall t :: t in SharedTags(tags, other) <==> t in tags && AnyMatch(t, other)
    ensures forall t :: multiset(SharedTags(tags, other))[t] == if AnyMatch(t, other) then multiset(tags)[t] else 0
    ensures SharedTags(tags, other) != [] <==> exists k :: 0 <= k < |tags| && AnyMatch(tags[k], other)
    decreases |tags|
  {
    if |tags| > 0 {
      SharedTagsSpec(tags[1..], other);
      var rest := SharedTags(tags[1..], other);
      if AnyMatch(tags[0], other) {
        assert SharedTags(tags, other) == [tags[0]] + rest;
        assert ([tags[0]] + rest)[1..] == rest;
      } else {
        assert SharedTags(tags, other) == rest;
        if exists k :: 0 <= k < |tags| && AnyMatch(tags[k], other) {
          var k :| 0 <= k < |tags| && AnyMatch(tags[k], other);
          assert AnyMatch(tags[1..][k - 1], other);
        }
      }
      assert forall t :: t in tags <==> t == tags[0] || t in tags[1..];
    }
    SharedTagsCount(tags, other);
  }

  /** Each tag occurs in the shared list as often as in the first list if it
      matches the second, and not at all otherwise. */
  lemma {:induction false} SharedTagsCount(tags: seq<string>, other: seq<string>)
    ensures forall t :: multiset(SharedTags(tags, other))[t] == if AnyMatch(t, other) then multiset(tags)[t] else 0
    decreases |tags|
  {
    if |tags| > 0 {
      SharedTagsCount(tags[1..], other);
      assert tags == [tags[0]] + tags[1..];
      assert multiset(tags) == multiset{tags[0]} + multiset(tags[1..]);
      var head := if AnyMatch(tags[0], other) then [tags[0]] else [];
      assert multiset(SharedTags(tags, other)) == multiset(head) + multiset(SharedTags(tags[1..], other));
    }
  }

  // ---------------------------------------------------------------------
  // The edge list, as the nested loops produce it.

  /** The edge for the pair (i, j), if the two projects share a tag. */
  function Edge(ps: seq<Project>, i: int, j: int): seq<Connection>
    requires 0 <= i < j < |ps|
  {
    var shared := SharedTags(ps[i].tags, ps[j].tags);
    if |shared| > 0 then [Connection(i, j, shared)] else []
  }

  /** The edges the inner loop adds for row i from column j on. */
  function Row(ps: seq<Project>, i: int, j: int): seq<Connection>
    requires 0 <= i < j <= |ps|
    decreases |ps| - j
  {
    if j == |ps| then [] else Edge(ps, i, j) + Row(ps, i, j + 1)
  }

  /** The edges the outer loop adds from row i on. */
  function RowsFrom(ps: seq<Project>, i: int): seq<Connection>
    requires 0 <= i <= |ps|
    decreases |ps| - i
  {
    if i == |ps| then [] else Row(ps, i, i + 1) + RowsFrom(ps, i + 1)
  }

  function Connections(ps: seq<Project>): seq<Connection> {
    RowsFrom(ps, 0)
  }

  /** The connections construction: the outer loop over i. */
  method BuildConnections(projects: seq<Project>) returns (connections: seq<Connection>)
    ensures connections == Connections(projects)
  {
    connections := [];
    var i := 0;
    while i < |projects|
      invariant 0 <= i <= |projects|
      invariant connections + RowsFrom(projects, i) == Connections(projects)
    {
      ghost var before, rest := connections, RowsFrom(projects, i + 1);
      assert RowsFrom(projects, i) == Row(projects, i, i + 1) + rest;
      connections := AddRow(projects, i, connections);
      assert before + (Row(projects, i, i + 1) + rest) == connections + rest;
      i := i + 1;
    }
  }

  /** The inner loop over j > i: append the edge of every pair (i, j) whose
      shared tag list is non-empty. */
  method AddRow(projects: seq<Project>, i: int, prefix: seq<Connection>) returns (connections: seq<Connection>)
    requires 0 <= i < |projects|
    ensures connections == prefix + Row(projects, i, i + 1)
  {
    connections := prefix;
    var j := i + 1;
    while j < |projects|
      invariant i + 1 <= j <= |projects|
      invariant connections + Row(projects, i, j) == prefix + Row(projects, i, i + 1)
    {
      ghost var before := connections;
      var shared := SharedTags(projects[i].tags, projects[j].tags);
      if |shared| > 0 {
        connections := connections + [Connection(i, j, shared)];
      }
      assert connections == before + Edge(projects, i, j);
      j := j + 1;
    }
  }

  // ---------------------------------------------------------------------
  // Properties of the edge list.

  /** An edge joins two distinct projects in index order and carries their
      non-empty list of shared tags. */
  predicate SoundEdge(ps: seq<Project>, c: Connection) {
    && 0 <= c.from < c.to < |ps|
    && c.shared == SharedTags(ps[c.from].tags, ps[c.to].tags)
    && c.shared != []
  }

  lemma {:induction false} RowSound(ps: seq<Project>, i: int, j: int)
    requires 0 <= i < j <= |ps|
    ensures forall c :: c in Row(ps, i, j) ==> SoundEdge(ps, c) && c.from == i && j <= c.to
    decreases |ps| - j
  {
    if j < |ps| {
      RowSound(ps, i, j + 1);
    }
  }

  lemma {:induction false} RowsFromSound(ps: seq<Project>, i: int)
    requires 0 <= i <= |ps|
    ensures forall c :: c in RowsFrom(ps, i) ==> SoundEdge(ps, c) && i <= c.from
    decreases |ps| - i
  {
    if i < |ps| {
      RowSound(ps, i, i + 1);
      RowsFromSound(ps, i + 1);
    }
  }

  /** Every connection joins i < j within the project list (no self-loops)
      and carries the non-empty shared tags of the pair. */
  lemma ConnectionsSound(ps: seq<Project>)
    ensures forall c :: c in Connections(ps) ==> SoundEdge(ps, c)
  {
    RowsFromSound(ps, 0);
  }

  predicate HasPair(cs: seq<Connection>, i: int, j: int) {
    exists c :: c in cs && c.from == i && c.to == j
  }

  /** Two tag lists share a tag when some tag of the first matches some tag
      of the second. */
  predicate ShareTag(a: seq<string>, b: seq<string>) {
    exists k, l :: 0 <= k < |a| && 0 <= l < |b| && SameTag(b[l], a[k])
  }

  lemma ShareTagIsShared(a: seq<string>, b: seq<string>)
    ensures ShareTag(a, b) <==> SharedTags(a, b) != []
  {
    SharedTagsSpec(a, b);
    forall k | 0 <= k < |a| {
      AnyMatchIsSome(a[k], b);
    }
  }

  lemma HasPairConcat(a: seq<Connection>, b: seq<Connection>, i: int, j: int)
    ensures HasPair(a + b, i, j) <==> HasPair(a, i, j) || HasPair(b, i, j)
  {
    if HasPair(a + b, i, j) {
      var c :| c in a + b && c.from == i && c.to == j;
      assert c in a || c in b;
    }
    if HasPair(a, i, j) {
      var c :| c in a && c.from == i && c.to == j;
      assert c in a + b;
    }
    if HasPair(b, i, j) {
      var c :| c in b && c.from == i && c.to == j;
      assert c in a + b;
    }
  }

  lemma {:induction false} RowComplete(ps: seq<Project>, i: int, j0: int, j: int)
    requires 0 <= i < j0 <= |ps|
    ensures HasPair(Row(ps, i, j0), i, j) <==> j0 <= j < |ps| && SharedTags(ps[i].tags, ps[j].tags) != []
    decreases |ps| - j0
  {
    if j0 < |ps| {
      RowComplete(ps, i, j0 + 1, j);
      HasPairConcat(Edge(ps, i, j0), Row(ps, i, j0 + 1), i, j);
      if j == j0 && SharedTags(ps[i].tags, ps[j].tags) != [] {
        assert Edge(ps, i, j0)[0] == Connection(i, j, SharedTags(ps[i].tags, ps[j].tags));
      }
    }
  }

  lemma {:induction false} RowsFromComplete(ps: seq<Project>, i0: int, i: int, j: int)
    requires 0 <= i0 <= |ps|
    ensures HasPair(RowsFrom(ps, i0), i, j) <==>
              i0 <= i < j < |ps| && SharedTags(ps[i].tags, ps[j].tags) != []
    decreases |ps| - i0
  {
    if i0 < |ps| {
      RowsFromComplete(ps, i0 + 1, i, j);
      RowComplete(ps, i0, i0 + 1, j);
      RowSound(ps, i0, i0 + 1);
      HasPairConcat(Row(ps, i0, i0 + 1), RowsFrom(ps, i0 + 1), i, j);
    }
  }

  /** A pair i < j is connected exactly when the two projects share a tag
      case-insensitively. */
  lemma ConnectionsComplete(ps: seq<Project>, i: int, j: int)
    ensures HasPair(Connections(ps), i, j) <==> 0 <= i < j < |ps| && ShareTag(ps[i].tags, ps[j].tags)
  {
    RowsFromComplete(ps, 0, i, j);
    if 0 <= i < j < |ps| {
      ShareTagIsShared(ps[i].tags, ps[j].tags);
    }
  }

  /** (from, to) in strict lexicographic order. */
  predicate Before(c: Connection, d: Connection) {
    c.from < d.from || (c.from == d.from && c.to < d.to)
  }

  predicate Ordered(cs: seq<Connection>) {
    forall k, l :: 0 <= k < l < |cs| ==> Before(cs[k], cs[l])
  }

  lemma OrderedConcat(a: seq<Connection>, b: seq<Connection>)
    requires Ordered(a) && Ordered(b)
    requires forall x, y :: x in a && y in b ==> Before(x, y)
    ensures Ordered(a + b)
  {
    forall k, l | 0 <= k < l < |a + b|
      ensures Before((a + b)[k], (a + b)[l])
    {
      if l < |a| {
      } else if k >= |a| {
        assert (a + b)[k] == b[k - |a|] && (a + b)[l] == b[l - |a|];
      } else {
        assert (a + b)[k] in a && (a + b)[l] in b;
      }
    }
  }

  lemma {:induction false} RowOrdered(ps: seq<Project>, i: int, j: int)
    requires 0 <= i < j <= |ps|
    ensures Ordered(Row(ps, i, j))
    decreases |ps| - j
  {
    if j < |ps| {
      RowOrdered(ps, i, j + 1);
      RowSound(ps, i, j + 1);
      OrderedConcat(Edge(ps, i, j), Row(ps, i, j + 1));
    }
  }

  lemma {:induction false} RowsFromOrdered(ps: seq<Project>, i: int)
    requires 0 <= i <= |ps|
    ensures Ordered(RowsFrom(ps, i))
    decreases |ps| - i
  {
    if i < |ps| {
      RowOrdered(ps, i, i + 1);
      RowsFromOrdered(ps, i + 1);
      RowSound(ps, i, i + 1);
      RowsFromSound(ps, i + 1);
      OrderedConcat(Row(ps, i, i + 1), RowsFrom(ps, i + 1));
    }
  }

  /** Connections are sorted by (from, to), so no pair appears twice. */
  lemma ConnectionsOrdered(ps: seq<Project>)
    ensures Ordered(Connections(ps))
    ensures forall k, l :: 0 <= k < l < |Connections(ps)| ==>
              (Connections(ps)[k].from, Connections(ps)[k].to) != (Connections(ps)[l].from, Connections(ps)[l].to)
  {
    RowsFromOrdered(ps, 0);
  }

  /** Tags of different lengths, or with different first letters after
      lower-casing, never match. */
  lemma DifferentTags(a: string, b: string)
    requires |a| != |b| || (|a| > 0 && |b| > 0 && LowerChar(a[0]) != LowerChar(b[0]))
    ensures !SameTag(a, b)
  {
    if |a| == |b| {
      assert Lower(a)[0] != Lower(b)[0];
    }
  }

  lemma {:induction false} NoMatch(t: string, tags: seq<string>)
    requires |t| > 0
    requires forall u :: u in tags ==> |u| != |t| || (|u| > 0 && LowerChar(u[0]) != LowerChar(t[0]))
    ensures !AnyMatch(t, tags)
    decreases |tags|
  {
    if |tags| > 0 {
      DifferentTags(tags[0], t);
      NoMatch(t, tags[1..]);
    }
  }

  lemma SharedFirstSecond()
    ensures SharedTags(Projects[0].tags, Projects[1].tags) == ["Python"]
  {
    assert AnyMatch("Python", Projects[1].tags);
    assert !AnyMatch("MySQL", Projects[1].tags) by { NoMatch("MySQL", Projects[1].tags); }
    assert !AnyMatch("Scikit-learn", Projects[1].tags) by { NoMatch("Scikit-learn", Projects[1].tags); }
    assert !AnyMatch("Power BI", Projects[1].tags) by { NoMatch("Power BI", Projects[1].tags); }
  }

  lemma SharedFirstThird()
    ensures SharedTags(Projects[0].tags, Projects[2].tags) == []
  {
    assert !AnyMatch("Python", Projects[2].tags) by { NoMatch("Python", Projects[2].tags); }
    assert !AnyMatch("MySQL", Projects[2].tags) by { NoMatch("MySQL", Projects[2].tags); }
    assert !AnyMatch("Scikit-learn", Projects[2].tags) by { NoMatch("Scikit-learn", Projects[2].tags); }
    assert !AnyMatch("Power BI", Projects[2].tags) by { NoMatch("Power BI", Projects[2].tags); }
  }

  lemma SharedSecondThird()
    ensures SharedTags(Projects[1].tags, Projects[2].tags) == []
  {
    assert !AnyMatch("Python", Projects[2].tags) by { NoMatch("Python", Projects[2].tags); }
    assert !AnyMatch("Flask", Projects[2].tags) by { NoMatch("Flask", Projects[2].tags); }
    assert !AnyMatch("Gemini API", Projects[2].tags) by { NoMatch("Gemini API", Projects[2].tags); }
    assert !AnyMatch("JavaScript", Projects[2].tags) by { NoMatch("JavaScript", Projects[2].tags); }
  }

  /** For the portfolio's three projects, the only edge joins the first two
      through their common "Python" tag. */
  lemma PortfolioGraph()
    ensures Connections(Projects) == [Connection(0, 1, ["Python"])]
  {
    SharedFirstSecond();
    SharedFirstThird();
    SharedSecondThird();
    assert Row(Projects, 0, 1) == [Connection(0, 1, ["Python"])];
    assert Row(Projects, 1, 2) == [];
  }
}
