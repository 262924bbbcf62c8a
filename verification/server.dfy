/** The request handlers of the HTTP API: validation, the storage call,
    and the mapping of the storage outcome to a status code and body.
    Every handler is a pure function of the request, the table and the
    storage fault oracle, returning the response and the table afterwards. */
module Server {
  import opened Wrappers
  import opened Text
  import opened Profiles
  import opened Database
  import opened Search

  const OK := 200
  const CREATED := 201
  const BAD_REQUEST := 400
  const NOT_FOUND := 404
  const CONFLICT := 409
  const SERVER_ERROR := 500

  const MissingFields: string := "Name and email are required"
  const DuplicateEmail: string := "Email already exists"
  const ProfileNotFound: string := "Profile not found"
  const MissingQuery: string := "Query parameter \"q\" is required"

  /** A POST or PUT body. `None` stands for a field that is absent, `null`
      or otherwise falsy, so `Some("")` is the only falsy string left. */
  datatype ProfileInput = ProfileInput(
    name: Option<string>,
    email: Option<string>,
    education: Option<string>,
    skills: Option<seq<string>>,
    projects: Option<seq<Project>>)

  datatype Body =
    | ErrorBody(error: string)
    | CreatedBody(id: int, message: string)
    | MessageBody(message: string)
    | ProfileBody(id: int, profile: Profile)
    | MatchesBody(matches: seq<ProjectMatch>)

  datatype Response = Response(status: int, body: Body)

  /** A response together with the table after the request. */
  datatype Outcome = Outcome(response: Response, store: Store)

  /** JavaScript truthiness of an optional string. */
  predicate Truthy(v: Option<string>) {
    v.Some? && v.value != []
  }

  /** The guard `if (!name || !email)` lets the request through. */
  predicate HasRequiredFields(input: ProfileInput) {
    Truthy(input.name) && Truthy(input.email)
  }

  /** The row a validated body is stored as: `skills || []`,
      `projects || []`, education passed through as given. */
  function ToProfile(input: ProfileInput): (p: Profile)
    requires HasRequiredFields(input)
    ensures p.name == input.name.value && p.name != []
    ensures p.email == input.email.value && p.email != []
    ensures p.education == input.education
    ensures input.skills.Some? ==> p.skills == input.skills.value
    ensures input.skills.None? ==> p.skills == []
    ensures input.projects.Some? ==> p.projects == input.projects.value
    ensures input.projects.None? ==> p.projects == []
  {
    Profile(input.name.value, input.email.value, input.education,
            input.skills.GetOr([]), input.projects.GetOr([]))
  }

  /** The message test of the create and update callbacks. */
  predicate IsUniqueViolation(message: string) {
    Contains(message, UniqueMarker)
  }

  /** How the create and update callbacks answer a storage error: 409 for a
      uniqueness violation, otherwise 500 echoing the engine's message. */
  function WriteErrorResponse(message: string): (r: Response)
    ensures r.status == CONFLICT <==> IsUniqueViolation(message)
    ensures r.status == CONFLICT || r == Response(SERVER_ERROR, ErrorBody(message))
  {
    if IsUniqueViolation(message) then Response(CONFLICT, ErrorBody(DuplicateEmail))
    else Response(SERVER_ERROR, ErrorBody(message))
  }

  lemma UniqueViolationIsConflict()
    ensures IsUniqueViolation(UniqueViolation)
  {
    var i := |UniqueViolationPrefix|;
    assert UniqueViolation[i..i + |UniqueMarker|] == UniqueMarker;
    assert OccursAt(UniqueMarker, UniqueViolation, i);
  }

  /** Fault oracle whose message the callbacks classify as a conflict. */
  predicate FaultLooksUnique(fault: Option<string>) {
    fault.Some? && IsUniqueViolation(fault.value)
  }

  /** `POST /profiles`. */
  function CreateProfile(input: ProfileInput, s: Store, fault: Option<string>): (r: Outcome)
    ensures r.response.status in {CREATED, BAD_REQUEST, CONFLICT, SERVER_ERROR}
    ensures r.response.status == BAD_REQUEST <==> !HasRequiredFields(input)
    ensures r.response.status == BAD_REQUEST ==> r.response.body == ErrorBody(MissingFields)
    ensures r.response.status == CREATED <==>
      HasRequiredFields(input) && fault.None? && !EmailTaken(s, input.email.value)
    ensures r.response.status == CONFLICT <==>
      HasRequiredFields(input)
      && ((fault.None? && EmailTaken(s, input.email.value)) || FaultLooksUnique(fault))
    ensures r.response.status != CREATED ==> r.store == s
    ensures r.response.status == CREATED ==>
      && r.response.body.CreatedBody?
      && r.response.body.id == s.next
      && r.store.next == s.next + 1
      && r.store.rows.Keys == s.rows.Keys + {s.next}
      && r.store.rows[s.next] == ToProfile(input)
      && (forall id | id in s.rows && id != s.next :: r.store.rows[id] == s.rows[id])
    ensures Valid(s) ==> Valid(r.store)
    ensures Valid(s) && r.response.status == CREATED ==> r.response.body.id !in s.rows
  {
    UniqueViolationIsConflict();
    if !HasRequiredFields(input) then
      Outcome(Response(BAD_REQUEST, ErrorBody(MissingFields)), s)
    else
      match Insert(s, ToProfile(input), fault)
      case Failure(message) => Outcome(WriteErrorResponse(message), s)
      case Success(e) =>
        Outcome(Response(CREATED, CreatedBody(e.lastId, "Profile created successfully")), e.store)
  }

  /** `GET /profiles/:id`. */
  function GetProfile(id: int, s: Store, fault: Option<string>): (r: Response)
    ensures r.status in {OK, NOT_FOUND, SERVER_ERROR}
    ensures r.status == SERVER_ERROR <==> fault.Some?
    ensures r.status == NOT_FOUND <==> fault.None? && id !in s.rows
    ensures r.status == OK ==> id in s.rows && r.body == ProfileBody(id, s.rows[id])
  {
    match Find(s, id, fault)
    case Failure(message) => Response(SERVER_ERROR, ErrorBody(message))
    case Success(None) => Response(NOT_FOUND, ErrorBody(ProfileNotFound))
    case Success(Some(p)) => Response(OK, ProfileBody(id, p))
  }

  /** `PUT /profiles/:id`: replaces every mutable field of the row. */
  function UpdateProfile(id: int, input: ProfileInput, s: Store, fault: Option<string>): (r: Outcome)
    ensures r.response.status in {OK, BAD_REQUEST, NOT_FOUND, CONFLICT, SERVER_ERROR}
    ensures r.response.status == BAD_REQUEST <==> !HasRequiredFields(input)
    ensures r.response.status == NOT_FOUND <==>
      HasRequiredFields(input) && fault.None? && id !in s.rows
    ensures r.response.status == CONFLICT <==>
      HasRequiredFields(input)
      && ((fault.None? && id in s.rows && EmailTakenByOther(s, id, input.email.value))
          || FaultLooksUnique(fault))
    ensures r.response.status == OK <==>
      HasRequiredFields(input) && fault.None? && id in s.rows
      && !EmailTakenByOther(s, id, input.email.value)
    ensures r.response.status != OK ==> r.store == s
    ensures r.response.status == OK ==>
      && r.store.next == s.next
      && r.store.rows.Keys == s.rows.Keys
      && r.store.rows[id] == ToProfile(input)
      && (forall other | other in s.rows && other != id :: r.store.rows[other] == s.rows[other])
    ensures Valid(s) ==> Valid(r.store)
  {
    UniqueViolationIsConflict();
    if !HasRequiredFields(input) then
      Outcome(Response(BAD_REQUEST, ErrorBody(MissingFields)), s)
    else
      match Update(s, id, ToProfile(input), fault)
      case Failure(message) => Outcome(WriteErrorResponse(message), s)
      case Success(e) =>
        if e.changes == 0 then Outcome(Response(NOT_FOUND, ErrorBody(ProfileNotFound)), s)
        else Outcome(Response(OK, MessageBody("Profile updated successfully")), e.store)
  }

  /** `DELETE /profiles/:id`. */
  function DeleteProfile(id: int, s: Store, fault: Option<string>): (r: Outcome)
    ensures r.response.status in {OK, NOT_FOUND, SERVER_ERROR}
    ensures r.response.status == SERVER_ERROR <==> fault.Some?
    ensures r.response.status == NOT_FOUND <==> fault.None? && id !in s.rows
    ensures r.response.status != OK ==> r.store == s
    ensures r.response.status == OK ==>
      && id in s.rows
      && r.store.next == s.next
      && r.store.rows.Keys == s.rows.Keys - {id}
      && (forall other | other in r.store.rows :: r.store.rows[other] == s.rows[other])
    ensures Valid(s) ==> Valid(r.store)
  {
    match Delete(s, id, fault)
    case Failure(message) => Outcome(Response(SERVER_ERROR, ErrorBody(message)), s)
    case Success(e) =>
      if e.changes == 0 then Outcome(Response(NOT_FOUND, ErrorBody(ProfileNotFound)), s)
      else Outcome(Response(OK, MessageBody("Profile deleted successfully")), e.store)
  }

  /** `GET /search/projects?q=`. `rows` is whatever the storage pre-filter
      returned; only the handler's own post-filter is modelled. */
  function SearchProjects(q: Option<string>, rows: seq<Row>, fault: Option<string>): (r: Response)
    ensures r.status in {OK, BAD_REQUEST, SERVER_ERROR}
    ensures r.status == BAD_REQUEST <==> !Truthy(q)
    ensures r.status == SERVER_ERROR <==> Truthy(q) && fault.Some?
    ensures r.status == OK ==>
      && r.body.MatchesBody?
      && |r.body.matches| <= TotalProjects(rows)
      && (forall k | 0 <= k < |r.body.matches| :: EntryMatches(r.body.matches[k], q.value))
  {
    if !Truthy(q) then Response(BAD_REQUEST, ErrorBody(MissingQuery))
    else if fault.Some? then Response(SERVER_ERROR, ErrorBody(fault.value))
    else Response(OK, MatchesBody(MatchingProjects(q.value, rows)))
  }

  // ---------------------------------------------------------------------
  // sequences of requests

  datatype Request =
    | CreateRequest(input: ProfileInput)
    | GetRequest(id: int)
    | UpdateRequest(id: int, input: ProfileInput)
    | DeleteRequest(id: int)

  /** A request and the storage fault it meets. */
  datatype Call = Call(request: Request, fault: Option<string>)

  function Handle(s: Store, c: Call): (r: Outcome)
    ensures Valid(s) ==> Valid(r.store)
    ensures r.response.status == CREATED ==>
      r.response.body.CreatedBody? && r.response.body.id == s.next && r.store.next == s.next + 1
    ensures r.response.status != CREATED ==> r.store.next == s.next
  {
    match c.request
    case CreateRequest(input) => CreateProfile(input, s, c.fault)
    case GetRequest(id) => Outcome(GetProfile(id, s, c.fault), s)
    case UpdateRequest(id, input) => UpdateProfile(id, input, s, c.fault)
    case DeleteRequest(id) => DeleteProfile(id, s, c.fault)
  }

  /** Serves the calls one after another: the final table and the
      responses in order. */
  function Run(s: Store, calls: seq<Call>): (Store, seq<Response>)
    decreases |calls|
  {
    if calls == [] then (s, [])
    else
      var o := Handle(s, calls[0]);
      var (t, rs) := Run(o.store, calls[1..]);
      (t, [o.response] + rs)
  }

  /** The ids reported by the 201 responses, in order. */
  function CreatedIds(rs: seq<Response>): seq<int> {
    if rs == [] then []
    else
      (if rs[0].status == CREATED && rs[0].body.CreatedBody? then [rs[0].body.id] else [])
      + CreatedIds(rs[1..])
  }

  predicate StrictlyIncreasing(xs: seq<int>) {
    forall i, j | 0 <= i < j < |xs| :: xs[i] < xs[j]
  }

  /** Along any sequence of calls the table stays valid, the AUTOINCREMENT
      counter never decreases, and the ids handed out are strictly
      increasing and lie in `[s.next, final.next)`. */
  lemma {:induction false} RunAssignsFreshIds(s: Store, calls: seq<Call>)
    ensures Valid(s) ==> Valid(Run(s, calls).0)
    ensures Run(s, calls).0.next >= s.next
    ensures StrictlyIncreasing(CreatedIds(Run(s, calls).1))
    ensures forall k | 0 <= k < |CreatedIds(Run(s, calls).1)| ::
      s.next <= CreatedIds(Run(s, calls).1)[k] < Run(s, calls).0.next
    decreases |calls|
  {
    if calls != [] {
      var o := Handle(s, calls[0]);
      RunAssignsFreshIds(o.store, calls[1..]);
      var rest := Run(o.store, calls[1..]);
      var rs := [o.response] + rest.1;
      assert Run(s, calls) == (rest.0, rs);
      assert rs[1..] == rest.1;
      var head := if o.response.status == CREATED && o.response.body.CreatedBody? then [o.response.body.id] else [];
      assert CreatedIds(rs) == head + CreatedIds(rest.1);
    }
  }

  lemma {:induction false} RunAppend(s: Store, c1: seq<Call>, c2: seq<Call>)
    ensures Run(s, c1 + c2).0 == Run(Run(s, c1).0, c2).0
    ensures Run(s, c1 + c2).1 == Run(s, c1).1 + Run(Run(s, c1).0, c2).1
    decreases |c1|
  {
    if c1 == [] {
      assert c1 + c2 == c2;
    } else {
      assert (c1 + c2)[0] == c1[0];
      assert (c1 + c2)[1..] == c1[1..] + c2;
      RunAppend(Handle(s, c1[0]).store, c1[1..], c2);
    }
  }

  lemma {:induction false} CreatedIdsAppend(a: seq<Response>, b: seq<Response>)
    ensures CreatedIds(a + b) == CreatedIds(a) + CreatedIds(b)
    decreases |a|
  {
    if a == [] {
      assert a + b == b;
    } else {
      assert (a + b)[1..] == a[1..] + b;
      CreatedIdsAppend(a[1..], b);
    }
  }

  /** Serving a history and then more requests hands out the ids of the
      whole run, and an id handed out afterwards differs from every id
      handed out during the history, deleted rows' ids included, and from
      every id the table held before it. */
  lemma {:induction false} NoIdReuse(s: Store, before: seq<Call>, after: seq<Call>)
    requires Valid(s)
    ensures CreatedIds(Run(s, before + after).1)
         == CreatedIds(Run(s, before).1) + CreatedIds(Run(Run(s, before).0, after).1)
    ensures forall x | x in CreatedIds(Run(Run(s, before).0, after).1) ::
      x !in CreatedIds(Run(s, before).1) && x !in s.rows
  {
    var mid := Run(s, before).0;
    RunAppend(s, before, after);
    CreatedIdsAppend(Run(s, before).1, Run(mid, after).1);
    RunAssignsFreshIds(s, before);
    RunAssignsFreshIds(mid, after);
  }

  // ---------------------------------------------------------------------
  // request-level properties

  /** A successful create can be read back: the stored row has the
      submitted name, email and education, and the submitted skills and
      projects, or `[]` where they were omitted. */
  lemma CreateThenGet(input: ProfileInput, s: Store, fault: Option<string>, readFault: Option<string>)
    requires CreateProfile(input, s, fault).response.status == CREATED
    requires readFault.None?
    ensures
      var o := CreateProfile(input, s, fault);
      var g := GetProfile(o.response.body.id, o.store, readFault);
      && g.status == OK
      && g.body.profile.name == input.name.value
      && g.body.profile.email == input.email.value
      && g.body.profile.education == input.education
      && g.body.profile.skills == (if input.skills.Some? then input.skills.value else [])
      && g.body.profile.projects == (if input.projects.Some? then input.projects.value else [])
  {
  }

  /** Creating two profiles with the same email: the second gets 409 and
      the table keeps exactly one row with that email. */
  lemma DuplicateCreateConflicts(a: ProfileInput, b: ProfileInput, s: Store)
    requires Valid(s)
    requires CreateProfile(a, s, None).response.status == CREATED
    requires HasRequiredFields(b) && b.email == a.email
    ensures
      var s1 := CreateProfile(a, s, None).store;
      var o := CreateProfile(b, s1, None);
      && o.response.status == CONFLICT
      && o.store == s1
      && (forall x, y | x in o.store.rows && y in o.store.rows
            && o.store.rows[x].email == a.email.value && o.store.rows[y].email == a.email.value :: x == y)
  {
    var s1 := CreateProfile(a, s, None).store;
    assert s1.rows[s.next].email == a.email.value;
  }

  /** A create rejected by the presence check leaves the row count as it was. */
  lemma MissingFieldsKeepCount(input: ProfileInput, s: Store, fault: Option<string>)
    requires !HasRequiredFields(input)
    ensures CreateProfile(input, s, fault).response.status == BAD_REQUEST
    ensures |CreateProfile(input, s, fault).store.rows| == |s.rows|
  {
  }

  /** Deleting the same id twice: 200, then 404; a get after the first
      delete is 404 too. */
  lemma DeleteTwice(id: int, s: Store)
    requires id in s.rows
    ensures
      var d1 := DeleteProfile(id, s, None);
      && d1.response.status == OK
      && GetProfile(id, d1.store, None).status == NOT_FOUND
      && DeleteProfile(id, d1.store, None).response.status == NOT_FOUND
  {
  }

  /** Setting skills to `[]` by an update reads back as `[]`, and an
      omitted `skills` or `projects` replaces the old value with `[]`. */
  lemma UpdateThenGet(id: int, input: ProfileInput, s: Store)
    requires UpdateProfile(id, input, s, None).response.status == OK
    ensures
      var g := GetProfile(id, UpdateProfile(id, input, s, None).store, None);
      && g.status == OK
      && g.body.profile == Profile(input.name.value, input.email.value, input.education,
                                   if input.skills.None? then [] else input.skills.value,
                                   if input.projects.None? then [] else input.projects.value)
  {
  }

  /** When the searched rows are rows of the table, each result carries the
      id and name its owning row has in the table, and is one of that
      row's projects; each matching project of a scanned row appears. */
  lemma SearchResultsBelongToStore(q: Option<string>, rows: seq<Row>, s: Store)
    requires forall j | 0 <= j < |rows| :: rows[j].id in s.rows && s.rows[rows[j].id] == rows[j].profile
    requires Truthy(q)
    ensures
      var r := SearchProjects(q, rows, None);
      && r.status == OK
      && (forall k | 0 <= k < |r.body.matches| ::
            var m := r.body.matches[k];
            m.profileId in s.rows && m.profileName == s.rows[m.profileId].name
            && ProjectOf(m) in s.rows[m.profileId].projects)
      && (forall j, p | 0 <= j < |rows| && p in rows[j].profile.projects && ProjectMatches(p, q.value) ::
            Annotate(p, rows[j]) in r.body.matches)
  {
    var ms := MatchingProjects(q.value, rows);
    MatchesComeFromRows(q.value, rows);
    forall k | 0 <= k < |ms|
      ensures ms[k].profileId in s.rows && ms[k].profileName == s.rows[ms[k].profileId].name
      ensures ProjectOf(ms[k]) in s.rows[ms[k].profileId].projects
    {
      var j :| 0 <= j < |rows| && FromRow(ms[k], rows[j]);
    }
    forall j, p | 0 <= j < |rows| && p in rows[j].profile.projects && ProjectMatches(p, q.value)
      ensures Annotate(p, rows[j]) in ms
    {
      MatchesAreComplete(q.value, rows, j, p);
    }
  }

  /** Searching for "ML" finds Jane Smith's sample project "ML Prediction
      Model" in any scan that includes her row, annotated with her name. */
  lemma SampleSearchFindsML(rows: seq<Row>, j: int)
    requires 0 <= j < |rows| && rows[j].profile == JaneSmith
    ensures
      var r := SearchProjects(Some("ML"), rows, None);
      && r.status == OK
      && ProjectMatch("ML Prediction Model", "Machine learning model for stock price prediction",
                      Some(["https://github.com/janesmith/ml-stocks"]), rows[j].id, "Jane Smith")
         in r.body.matches
  {
    var p := JaneSmith.projects[0];
    var t := LowerCase(p.title);
    assert t[0] == 'm' && t[1] == 'l';
    assert t[0..2] == LowerCase("ML");
    assert OccursAt(LowerCase("ML"), t, 0);
    assert ProjectMatches(p, "ML");
    MatchesAreComplete("ML", rows, j, p);
  }
}
