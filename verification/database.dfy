/** The `profiles` table and the storage engine's behaviour on it: the
    schema's constraints (AUTOINCREMENT id, NOT NULL name and email, UNIQUE
    email), the four single-row statements the handlers issue, and the
    seed-only-when-empty start-up routine.

    A storage failure other than a constraint violation (an I/O error, a
    locked database) cannot be predicted from the table's contents; every
    statement therefore takes a `fault` oracle: `Some(message)` makes the
    statement fail with that message and leave the table untouched. */
module Database {
  import opened Wrappers
  import opened Profiles

  /** The table's rows keyed by id, and the AUTOINCREMENT counter: the id
      the next successful INSERT receives. The counter only grows, so an id
      is never handed out twice, even after its row is deleted. */
  datatype Store = Store(rows: map<int, Profile>, next: int)

  /** A freshly created table. */
  const EmptyStore: Store := Store(map[], 1)

  /** What node-sqlite3 reports to a `run` callback: the table afterwards,
      `this.changes` and `this.lastID`. */
  datatype Exec = Exec(store: Store, changes: nat, lastId: int)

  /** The message SQLite reports when an INSERT or UPDATE would give two
      rows the same email. */
  const UniqueViolation: string := UniqueViolationPrefix + UniqueMarker + ": profiles.email"
  const UniqueViolationPrefix: string := "SQLITE_CONSTRAINT: "
  const UniqueMarker: string := "UNIQUE constraint failed"

  predicate EmailTaken(s: Store, email: string) {
    exists id | id in s.rows :: s.rows[id].email == email
  }

  /** Some row other than `id` holds `email`. */
  predicate EmailTakenByOther(s: Store, id: int, email: string) {
    exists other | other in s.rows && other != id :: s.rows[other].email == email
  }

  /** The invariant every reachable table keeps: ids lie below the
      AUTOINCREMENT counter (which starts at 1), every row has a non-empty
      name and email, and no two rows share an email. */
  ghost predicate Valid(s: Store) {
    && s.next >= 1
    && (forall id | id in s.rows :: 1 <= id < s.next)
    && (forall id | id in s.rows :: s.rows[id].name != [] && s.rows[id].email != [])
    && (forall a, b | a in s.rows && b in s.rows && a != b :: s.rows[a].email != s.rows[b].email)
  }

  lemma EmptyStoreValid()
    ensures Valid(EmptyStore)
  {
  }

  /** `INSERT INTO profiles ... VALUES (...)`. */
  function Insert(s: Store, p: Profile, fault: Option<string>): (r: Result<Exec, string>)
    ensures r.Success? <==> fault.None? && !EmailTaken(s, p.email)
    ensures r.Failure? ==> r.error == (if fault.Some? then fault.value else UniqueViolation)
    ensures r.Success? ==>
      && r.value.changes == 1
      && r.value.lastId == s.next
      && r.value.store.next == s.next + 1
      && r.value.store.rows.Keys == s.rows.Keys + {s.next}
      && r.value.store.rows[s.next] == p
      && (forall id | id in s.rows && id != s.next :: r.value.store.rows[id] == s.rows[id])
    ensures r.Success? && Valid(s) && p.name != [] && p.email != [] ==> Valid(r.value.store)
  {
    if fault.Some? then Failure(fault.value)
    else if EmailTaken(s, p.email) then Failure(UniqueViolation)
    else Success(Exec(Store(s.rows[s.next := p], s.next + 1), 1, s.next))
  }

  /** `UPDATE profiles SET name = ?, ... WHERE id = ?`. A missing id
      matches no row, changes nothing and so cannot violate uniqueness. */
  function Update(s: Store, id: int, p: Profile, fault: Option<string>): (r: Result<Exec, string>)
    ensures r.Failure? <==> fault.Some? || (id in s.rows && EmailTakenByOther(s, id, p.email))
    ensures r.Failure? ==> r.error == (if fault.Some? then fault.value else UniqueViolation)
    ensures r.Success? ==> r.value.changes == (if id in s.rows then 1 else 0)
    ensures r.Success? && id !in s.rows ==> r.value.store == s
    ensures r.Success? && id in s.rows ==>
      && r.value.store.next == s.next
      && r.value.store.rows.Keys == s.rows.Keys
      && r.value.store.rows[id] == p
      && (forall other | other in s.rows && other != id :: r.value.store.rows[other] == s.rows[other])
    ensures r.Success? && Valid(s) && p.name != [] && p.email != [] ==> Valid(r.value.store)
  {
    if fault.Some? then Failure(fault.value)
    else if id !in s.rows then Success(Exec(s, 0, 0))
    else if EmailTakenByOther(s, id, p.email) then Failure(UniqueViolation)
    else Success(Exec(Store(s.rows[id := p], s.next), 1, 0))
  }

  /** `DELETE FROM profiles WHERE id = ?`. */
  function Delete(s: Store, id: int, fault: Option<string>): (r: Result<Exec, string>)
    ensures r.Failure? <==> fault.Some?
    ensures r.Success? ==> r.value.changes == (if id in s.rows then 1 else 0)
    ensures r.Success? ==>
      && r.value.store.next == s.next
      && r.value.store.rows.Keys == s.rows.Keys - {id}
      && (forall other | other in r.value.store.rows :: r.value.store.rows[other] == s.rows[other])
    ensures r.Success? && Valid(s) ==> Valid(r.value.store)
  {
    if fault.Some? then Failure(fault.value)
    else if id !in s.rows then Success(Exec(s, 0, 0))
    else Success(Exec(Store(s.rows - {id}, s.next), 1, 0))
  }

  /** `SELECT * FROM profiles WHERE id = ?`: the row, or `None` when no
      row has that id. */
  function Find(s: Store, id: int, fault: Option<string>): (r: Result<Option<Profile>, string>)
    ensures r.Failure? <==> fault.Some?
    ensures r.Success? ==> (r.value.Some? <==> id in s.rows)
    ensures r.Success? && r.value.Some? ==> r.value.value == s.rows[id]
  {
    if fault.Some? then Failure(fault.value)
    else if id in s.rows then Success(Some(s.rows[id]))
    else Success(None)
  }

  // ---------------------------------------------------------------------
  // seeding

  const JohnDoe: Profile := Profile(
    "John Doe", "john.doe@example.com", Some("Computer Science, MIT"),
    ["JavaScript", "Python", "React", "Node.js"],
    [ Project("E-commerce Platform", "Full-stack web application for online shopping",
              Some(["https://github.com/johndoe/ecommerce", "https://shop-demo.com"])),
      Project("Data Analysis Tool", "Python tool for analyzing customer behavior",
              Some(["https://github.com/johndoe/data-analysis"])) ])

  const JaneSmith: Profile := Profile(
    "Jane Smith", "jane.smith@example.com", Some("Software Engineering, Stanford"),
    ["Python", "Machine Learning", "TensorFlow", "SQL"],
    [ Project("ML Prediction Model", "Machine learning model for stock price prediction",
              Some(["https://github.com/janesmith/ml-stocks"])),
      Project("Web Scraper", "Python web scraper for data collection",
              Some(["https://github.com/janesmith/webscraper"])) ])

  const MikeJohnson: Profile := Profile(
    "Mike Johnson", "mike.johnson@example.com", Some("Information Systems, UC Berkeley"),
    ["Java", "Spring Boot", "Docker", "AWS"],
    [ Project("Microservices Architecture", "Scalable microservices system using Spring Boot",
              Some(["https://github.com/mikej/microservices"])) ])

  /** The sample rows, in insertion order. */
  const Samples: seq<Profile> := [JohnDoe, JaneSmith, MikeJohnson]

  /** The sample profiles have non-empty names and emails and pairwise
      distinct emails, so seeding an empty table cannot hit a constraint. */
  lemma SamplesWellFormed()
    ensures HaveNamesAndEmails(Samples)
    ensures forall j, k | 0 <= j < k < |Samples| :: Samples[j].email != Samples[k].email
  {
    assert JohnDoe.email[1] != JaneSmith.email[1];
    assert JohnDoe.email[0] != MikeJohnson.email[0];
    assert JaneSmith.email[0] != MikeJohnson.email[0];
  }

  predicate HaveNamesAndEmails(ps: seq<Profile>) {
    forall k | 0 <= k < |ps| :: ps[k].name != [] && ps[k].email != []
  }

  /** Runs the prepared INSERT once per profile, in order. A failed insert
      ends the batch here; what the driver does after a sample insert fails
      is not part of this model, and seeding an empty table never fails
      (`SeedingEmptyTable`). */
  function InsertEach(s: Store, ps: seq<Profile>): (r: Store)
    ensures r.next >= s.next
    ensures s.rows.Keys <= r.rows.Keys
    ensures Valid(s) && HaveNamesAndEmails(ps) ==> Valid(r)
    decreases |ps|
  {
    if ps == [] then s
    else
      match Insert(s, ps[0], None)
      case Success(e) => InsertEach(e.store, ps[1..])
      case Failure(_) => s
  }

  /** The start-up seeding routine: count the rows; on a failed count or a
      non-empty table do nothing, otherwise insert the sample profiles. */
  function Seed(s: Store, countFault: Option<string>): (r: Store)
    ensures countFault.Some? || |s.rows| != 0 ==> r == s
    ensures countFault.None? && |s.rows| == 0 ==>
      && r.next == s.next + 3
      && r.rows == map[s.next := JohnDoe, s.next + 1 := JaneSmith, s.next + 2 := MikeJohnson]
    ensures Valid(s) ==> Valid(r)
  {
    if countFault.Some? || |s.rows| != 0 then s
    else
      SamplesWellFormed();
      SeedingEmptyTable(s);
      InsertEach(s, Samples)
  }

  /** On an empty table the sample inserts all succeed, under consecutive
      fresh ids. */
  lemma SeedingEmptyTable(s: Store)
    requires |s.rows| == 0
    ensures InsertEach(s, Samples).next == s.next + 3
    ensures InsertEach(s, Samples).rows
         == map[s.next := Samples[0], s.next + 1 := Samples[1], s.next + 2 := Samples[2]]
  {
    SamplesWellFormed();
    InsertThreeIntoEmpty(s, Samples);
  }

  /** An insert that succeeds hands the rest of the batch the grown table. */
  lemma {:induction false} InsertEachStep(s: Store, ps: seq<Profile>)
    requires ps != [] && !EmailTaken(s, ps[0].email)
    ensures InsertEach(s, ps) == InsertEach(Store(s.rows[s.next := ps[0]], s.next + 1), ps[1..])
  {
  }

  /** Inserting three profiles with distinct emails into an empty table
      stores all three, under consecutive fresh ids. */
  lemma {:induction false} InsertThreeIntoEmpty(s: Store, ps: seq<Profile>)
    requires |s.rows| == 0 && |ps| == 3
    requires ps[0].email != ps[1].email && ps[0].email != ps[2].email && ps[1].email != ps[2].email
    ensures InsertEach(s, ps).next == s.next + 3
    ensures InsertEach(s, ps).rows == map[s.next := ps[0], s.next + 1 := ps[1], s.next + 2 := ps[2]]
  {
    calc {
      InsertEach(s, ps);
    == { FirstOfThree(s, ps); }
      InsertEach(Store(map[s.next := ps[0]], s.next + 1), ps[1..]);
    == { SecondOfThree(s.next, ps); }
      InsertEach(Store(map[s.next := ps[0], s.next + 1 := ps[1]], s.next + 2), ps[2..]);
    == { ThirdOfThree(s.next, ps); }
      Store(map[s.next := ps[0], s.next + 1 := ps[1], s.next + 2 := ps[2]], s.next + 3);
    }
  }

  lemma {:induction false} FirstOfThree(s: Store, ps: seq<Profile>)
    requires |s.rows| == 0 && |ps| == 3
    ensures InsertEach(s, ps) == InsertEach(Store(map[s.next := ps[0]], s.next + 1), ps[1..])
  {
    assert s.rows == map[];
    assert s.rows[s.next := ps[0]] == map[s.next := ps[0]];
    InsertEachStep(s, ps);
  }

  lemma {:induction false} SecondOfThree(n: int, ps: seq<Profile>)
    requires |ps| == 3 && ps[0].email != ps[1].email
    ensures InsertEach(Store(map[n := ps[0]], n + 1), ps[1..])
         == InsertEach(Store(map[n := ps[0], n + 1 := ps[1]], n + 2), ps[2..])
  {
    var s1 := Store(map[n := ps[0]], n + 1);
    assert !EmailTaken(s1, ps[1].email);
    InsertEachStep(s1, ps[1..]);
    assert ps[1..][1..] == ps[2..];
  }

  lemma {:induction false} ThirdOfThree(n: int, ps: seq<Profile>)
    requires |ps| == 3 && ps[0].email != ps[2].email && ps[1].email != ps[2].email
    ensures InsertEach(Store(map[n := ps[0], n + 1 := ps[1]], n + 2), ps[2..])
         == Store(map[n := ps[0], n + 1 := ps[1], n + 2 := ps[2]], n + 3)
  {
    var m2 := map[n := ps[0], n + 1 := ps[1]];
    assert m2.Keys == {n, n + 1};
    assert !EmailTaken(Store(m2, n + 2), ps[2].email);
    InsertEachStep(Store(m2, n + 2), ps[2..]);
    assert ps[2..][1..] == [];
  }
}
