/** The post-filter of `GET /search/projects`: the storage pre-filter (a
    `LIKE` over the projects column's JSON text) hands back some rows; of
    each row's projects the handler keeps those whose title or description
    contains the query case-insensitively, and flattens the kept projects,
    row by row and in project order, each annotated with its owner's id
    and name. */
module Search {
  import opened Wrappers
  import opened Text
  import opened Profiles
  import opened Sequences

  /** A row as the pre-filter returns it. */
  datatype Row = Row(id: int, profile: Profile)

  /** One search result: the project's own fields plus `profileId` and
      `profileName`. */
  datatype ProjectMatch = ProjectMatch(
    title: string,
    description: string,
    links: Option<seq<string>>,
    profileId: int,
    profileName: string)

  /** `{...project, profileId: row.id, profileName: row.name}`: the
      project's fields come back unchanged (`ProjectOf`), tagged with its
      row. */
  function Annotate(p: Project, row: Row): (m: ProjectMatch)
    ensures ProjectOf(m) == p
    ensures m.profileId == row.id && m.profileName == row.profile.name
  {
    ProjectMatch(p.title, p.description, p.links, row.id, row.profile.name)
  }

  /** The project a result was made from. */
  function ProjectOf(m: ProjectMatch): Project {
    Project(m.title, m.description, m.links)
  }

  /** The filter's test on a project. */
  predicate ProjectMatches(p: Project, q: string) {
    ContainsIgnoreCase(p.title, q) || ContainsIgnoreCase(p.description, q)
  }

  /** The same test read off a result. */
  predicate EntryMatches(m: ProjectMatch, q: string) {
    ContainsIgnoreCase(m.title, q) || ContainsIgnoreCase(m.description, q)
  }

  /** `m` is one of `row`'s projects, annotated with that row's id and name. */
  predicate FromRow(m: ProjectMatch, row: Row) {
    m.profileId == row.id && m.profileName == row.profile.name && ProjectOf(m) in row.profile.projects
  }

  /** Number of projects across the scanned rows. */
  function TotalProjects(rows: seq<Row>): nat {
    if rows == [] then 0 else TotalProjects(rows[..|rows| - 1]) + |rows[|rows| - 1].profile.projects|
  }

  // ---------------------------------------------------------------------
  // the handler's computation

  /** `projects.filter(matches)` for one row, each kept project annotated
      as the inner `forEach` pushes it. */
  function RowMatches(q: string, row: Row, ps: seq<Project>): (r: seq<ProjectMatch>)
    ensures |r| <= |ps|
    ensures forall k | 0 <= k < |r| :: EntryMatches(r[k], q)
    ensures forall k | 0 <= k < |r| :: r[k].profileId == row.id && r[k].profileName == row.profile.name
    ensures forall k | 0 <= k < |r| :: ProjectOf(r[k]) in ps
  {
    if ps == [] then []
    else
      var p := ps[|ps| - 1];
      RowMatches(q, row, ps[..|ps| - 1]) + (if ProjectMatches(p, q) then [Annotate(p, row)] else [])
  }

  /** The `matchingProjects` array after the outer `forEach` has visited
      every row. */
  function MatchingProjects(q: string, rows: seq<Row>): (r: seq<ProjectMatch>)
    ensures |r| <= TotalProjects(rows)
    ensures forall k | 0 <= k < |r| :: EntryMatches(r[k], q)
  {
    if rows == [] then []
    else
      var row := rows[|rows| - 1];
      MatchingProjects(q, rows[..|rows| - 1]) + RowMatches(q, row, row.profile.projects)
  }

  /** The handler's loops: every row in order, every project of the row in
      order, pushing each one that matches. */
  method CollectMatches(q: string, rows: seq<Row>) returns (out: seq<ProjectMatch>)
    ensures out == SelectMatching(q, AllEntries(rows))
    ensures forall k | 0 <= k < |out| :: EntryMatches(out[k], q)
  {
    out := [];
    var i := 0;
    while i < |rows|
      invariant 0 <= i <= |rows|
      invariant out == MatchingProjects(q, rows[..i])
    {
      var row := rows[i];
      var ps := row.profile.projects;
      var j := 0;
      ghost var before := out;
      while j < |ps|
        invariant 0 <= j <= |ps|
        invariant out == before + RowMatches(q, row, ps[..j])
      {
        var p := ps[j];
        if ProjectMatches(p, q) {
          out := out + [Annotate(p, row)];
        }
        assert ps[..j + 1][..j] == ps[..j];
        j := j + 1;
      }
      assert ps[..j] == ps;
      assert rows[..i + 1][..i] == rows[..i];
      i := i + 1;
    }
    assert rows[..i] == rows;
    MatchingIsSelectOfAll(q, rows);
  }

  // ---------------------------------------------------------------------
  // reference definition: flatten first, then filter

  /** Every project of `ps`, annotated with `row`. */
  function RowEntries(row: Row, ps: seq<Project>): (r: seq<ProjectMatch>)
    ensures |r| == |ps|
    ensures forall k | 0 <= k < |r| :: r[k] == Annotate(ps[k], row)
  {
    if ps == [] then [] else RowEntries(row, ps[..|ps| - 1]) + [Annotate(ps[|ps| - 1], row)]
  }

  /** Every project of every scanned row, row by row, annotated. */
  function AllEntries(rows: seq<Row>): (r: seq<ProjectMatch>)
    ensures |r| == TotalProjects(rows)
  {
    if rows == [] then []
    else
      var row := rows[|rows| - 1];
      AllEntries(rows[..|rows| - 1]) + RowEntries(row, row.profile.projects)
  }

  /** The entries of `ms` that match `q`, in order. */
  function SelectMatching(q: string, ms: seq<ProjectMatch>): seq<ProjectMatch> {
    if ms == [] then []
    else
      var m := ms[|ms| - 1];
      SelectMatching(q, ms[..|ms| - 1]) + (if EntryMatches(m, q) then [m] else [])
  }

  lemma {:induction false} SelectAppend(q: string, a: seq<ProjectMatch>, b: seq<ProjectMatch>)
    ensures SelectMatching(q, a + b) == SelectMatching(q, a) + SelectMatching(q, b)
    decreases |b|
  {
    if b == [] {
      assert a + b == a;
    } else {
      assert (a + b)[..|a + b| - 1] == a + b[..|b| - 1];
      SelectAppend(q, a, b[..|b| - 1]);
    }
  }

  lemma {:induction false} RowMatchesIsSelect(q: string, row: Row, ps: seq<Project>)
    ensures RowMatches(q, row, ps) == SelectMatching(q, RowEntries(row, ps))
    decreases |ps|
  {
    if ps != [] {
      var init := ps[..|ps| - 1];
      RowMatchesIsSelect(q, row, init);
      var es := RowEntries(row, ps);
      assert es[..|es| - 1] == RowEntries(row, init);
    }
  }

  /** The handler's filter-each-row-then-flatten equals flatten-then-filter:
      the results are exactly the matching entries of all scanned projects,
      in row order and then project order. */
  lemma {:induction false} MatchingIsSelectOfAll(q: string, rows: seq<Row>)
    ensures MatchingProjects(q, rows) == SelectMatching(q, AllEntries(rows))
    decreases |rows|
  {
    if rows != [] {
      var init := rows[..|rows| - 1];
      var row := rows[|rows| - 1];
      MatchingIsSelectOfAll(q, init);
      RowMatchesIsSelect(q, row, row.profile.projects);
      SelectAppend(q, AllEntries(init), RowEntries(row, row.profile.projects));
    }
  }

  /** Selection keeps exactly the matching entries, and keeps their order. */
  lemma SelectIsOrderedFilter(q: string, ms: seq<ProjectMatch>)
    ensures forall m :: m in SelectMatching(q, ms) <==> m in ms && EntryMatches(m, q)
    ensures IsSubsequence(SelectMatching(q, ms), ms)
  {
    SelectMembers(q, ms);
    SelectKeepsOrder(q, ms);
  }

  lemma {:induction false} SelectMembers(q: string, ms: seq<ProjectMatch>)
    ensures forall m :: m in SelectMatching(q, ms) <==> m in ms && EntryMatches(m, q)
    decreases |ms|
  {
    if ms != [] {
      var init := ms[..|ms| - 1];
      SelectMembers(q, init);
      assert ms == init + [ms[|ms| - 1]];
    }
  }

  lemma {:induction false} SelectKeepsOrder(q: string, ms: seq<ProjectMatch>)
    ensures IsSubsequence(SelectMatching(q, ms), ms)
    decreases |ms|
  {
    if ms == [] {
      assert Embeds([], ms, []);
    } else {
      var init := ms[..|ms| - 1];
      var last := ms[|ms| - 1];
      SelectKeepsOrder(q, init);
      var idx :| Embeds(SelectMatching(q, init), init, idx);
      if EntryMatches(last, q) {
        assert Embeds(SelectMatching(q, ms), ms, idx + [|ms| - 1]);
      } else {
        assert Embeds(SelectMatching(q, ms), ms, idx);
      }
    }
  }

  /** Every result is a project of one of the scanned rows, carrying that
      row's id and name. */
  lemma {:induction false} MatchesComeFromRows(q: string, rows: seq<Row>)
    ensures forall k | 0 <= k < |MatchingProjects(q, rows)| ::
      exists j | 0 <= j < |rows| :: FromRow(MatchingProjects(q, rows)[k], rows[j])
    decreases |rows|
  {
    if rows != [] {
      var init := rows[..|rows| - 1];
      var row := rows[|rows| - 1];
      MatchesComeFromRows(q, init);
      var a := MatchingProjects(q, init);
      var b := RowMatches(q, row, row.profile.projects);
      var r := MatchingProjects(q, rows);
      assert r == a + b;
      forall k | 0 <= k < |r|
        ensures exists j | 0 <= j < |rows| :: FromRow(r[k], rows[j])
      {
        if k < |a| {
          var j :| 0 <= j < |init| && FromRow(a[k], init[j]);
          assert init[j] == rows[j];
          assert r[k] == a[k];
          assert FromRow(r[k], rows[j]);
        } else {
          var i := k - |a|;
          assert r[k] == b[i];
          assert ProjectOf(b[i]) in row.profile.projects;
          assert FromRow(r[k], rows[|rows| - 1]);
        }
      }
      assert forall k | 0 <= k < |r| :: exists j | 0 <= j < |rows| :: FromRow(r[k], rows[j]);
    } else {
      assert MatchingProjects(q, rows) == [];
    }
  }

  /** Every matching project of every scanned row is among the results. */
  lemma MatchesAreComplete(q: string, rows: seq<Row>, j: int, p: Project)
    requires 0 <= j < |rows| && p in rows[j].profile.projects && ProjectMatches(p, q)
    ensures Annotate(p, rows[j]) in MatchingProjects(q, rows)
  {
    MatchingIsSelectOfAll(q, rows);
    SelectIsOrderedFilter(q, AllEntries(rows));
    EntryInAll(rows, j, p);
  }

  lemma {:induction false} EntryInAll(rows: seq<Row>, j: int, p: Project)
    requires 0 <= j < |rows| && p in rows[j].profile.projects
    ensures Annotate(p, rows[j]) in AllEntries(rows)
    decreases |rows|
  {
    var init := rows[..|rows| - 1];
    var row := rows[|rows| - 1];
    if j < |rows| - 1 {
      assert rows[j] == init[j];
      EntryInAll(init, j, p);
    } else {
      var es := RowEntries(row, row.profile.projects);
      var k :| 0 <= k < |row.profile.projects| && row.profile.projects[k] == p;
      assert es[k] == Annotate(p, row);
    }
  }
}
