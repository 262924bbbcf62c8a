/** The browser client's "add profile" form: the pure part of its submit
    handler, which trims the inputs, refuses to submit without a name and
    an email, parses the comma-separated skills and links, builds at most
    one project and normalises an empty education to `null`. */
module Client {
  import opened Wrappers
  import opened Text
  import opened Profiles
  import opened Database
  import opened Server
  import opened Sequences

  /** The raw values of the form's inputs. */
  datatype Form = Form(
    name: string,
    email: string,
    education: string,
    skills: string,
    projectTitle: string,
    projectDescription: string,
    projectLinks: string)

  /** The JSON body the client posts. */
  datatype ProfileData = ProfileData(
    name: string,
    email: string,
    education: Option<string>,
    skills: seq<string>,
    projects: seq<Project>)

  /** A well-formed list entry: non-empty, trimmed, free of commas. */
  predicate IsListItem(s: string) {
    s != [] && IsTrimmed(s) && ',' !in s
  }

  predicate CommaFree(pieces: seq<string>) {
    forall k | 0 <= k < |pieces| :: ',' !in pieces[k]
  }

  predicate AllListItems(xs: seq<string>) {
    forall k | 0 <= k < |xs| :: IsListItem(xs[k])
  }

  /** `.map(s => s.trim()).filter(s => s)` over split pieces. */
  function TrimNonBlank(pieces: seq<string>): (r: seq<string>)
    ensures |r| <= |pieces|
    ensures CommaFree(pieces) ==> AllListItems(r)
  {
    if pieces == [] then []
    else
      var t := Trim(pieces[0]);
      var rest := TrimNonBlank(pieces[1..]);
      assert CommaFree(pieces) ==> CommaFree(pieces[1..]) && ',' !in t by {
        if CommaFree(pieces) {
          TrimKeepsOut(pieces[0], ',');
          assert forall k | 0 <= k < |pieces[1..]| :: pieces[1..][k] == pieces[k + 1];
        }
      }
      (if t == [] then [] else [t]) + rest
  }

  /** `input ? input.split(',').map(s => s.trim()).filter(s => s) : []`. */
  function ParseList(input: string): (r: seq<string>)
    ensures input == [] ==> r == []
    ensures forall k | 0 <= k < |r| :: IsListItem(r[k])
    ensures |r| <= |Split(input, ',')|
  {
    if input == [] then [] else TrimNonBlank(Split(input, ','))
  }

  /** Every piece, trimmed. */
  function TrimEach(pieces: seq<string>): (r: seq<string>)
    ensures |r| == |pieces|
  {
    seq(|pieces|, k requires 0 <= k < |pieces| => Trim(pieces[k]))
  }

  /** Trimming and dropping blanks works piece by piece, so it distributes
      over concatenation. */
  lemma {:induction false} TrimNonBlankAppend(a: seq<string>, b: seq<string>)
    ensures TrimNonBlank(a + b) == TrimNonBlank(a) + TrimNonBlank(b)
    decreases |a|
  {
    if a == [] {
      assert a + b == b;
    } else {
      assert (a + b)[0] == a[0];
      assert (a + b)[1..] == a[1..] + b;
      TrimNonBlankAppend(a[1..], b);
    }
  }

  /** Trimming and dropping blanks keeps every non-blank trimmed piece, in
      input order, and nothing else. */
  lemma {:induction false} TrimNonBlankIsOrderedFilter(pieces: seq<string>)
    ensures exists idx :: RemovesOnly(TrimEach(pieces), TrimNonBlank(pieces), idx, [])
    decreases |pieces|
  {
    if pieces == [] {
      assert RemovesOnly(TrimEach(pieces), TrimNonBlank(pieces), [], []);
    } else {
      var init := pieces[..|pieces| - 1];
      var last := pieces[|pieces| - 1];
      assert pieces == init + [last];
      TrimNonBlankIsOrderedFilter(init);
      var idx :| RemovesOnly(TrimEach(init), TrimNonBlank(init), idx, []);
      if Trim(last) == [] {
        DropBlankLast(init, last, idx);
        assert RemovesOnly(TrimEach(pieces), TrimNonBlank(pieces), idx, []);
      } else {
        KeepNonBlankLast(init, last, idx);
        assert RemovesOnly(TrimEach(pieces), TrimNonBlank(pieces), idx + [|init|], []);
      }
    }
  }

  /** A trailing piece that trims to nothing adds no entry. */
  lemma {:induction false} DropBlankLast(init: seq<string>, last: string, idx: seq<int>)
    requires Trim(last) == [] && RemovesOnly(TrimEach(init), TrimNonBlank(init), idx, [])
    ensures RemovesOnly(TrimEach(init + [last]), TrimNonBlank(init + [last]), idx, [])
  {
    TrimNonBlankAppend(init, [last]);
    assert TrimNonBlank([last]) == [] by {
      assert [last][1..] == [];
    }
    assert TrimEach(init + [last]) == TrimEach(init) + [[]];
    RemoveLastStep(TrimEach(init), TrimNonBlank(init), idx, []);
  }

  /** Any other trailing piece adds its trimmed self at the end. */
  lemma {:induction false} KeepNonBlankLast(init: seq<string>, last: string, idx: seq<int>)
    requires Trim(last) != [] && RemovesOnly(TrimEach(init), TrimNonBlank(init), idx, [])
    ensures RemovesOnly(TrimEach(init + [last]), TrimNonBlank(init + [last]), idx + [|init|], [])
  {
    var t := Trim(last);
    TrimNonBlankAppend(init, [last]);
    assert TrimNonBlank([last]) == [t] by {
      assert [last][1..] == [];
    }
    assert TrimEach(init + [last]) == TrimEach(init) + [t];
    KeepLastStep(TrimEach(init), TrimNonBlank(init), idx, t, []);
  }

  /** The parsed list is the comma-separated pieces of the input, trimmed,
      with blank ones dropped, in input order; an empty input needs no
      special case, since it splits into one blank piece. */
  lemma {:induction false} ParseListIsFilterOfSplit(input: string)
    ensures ParseList(input) == TrimNonBlank(Split(input, ','))
    ensures exists idx :: RemovesOnly(TrimEach(Split(input, ',')), ParseList(input), idx, [])
    ensures forall x :: x in ParseList(input) <==> x != [] && x in TrimEach(Split(input, ','))
  {
    var pieces := Split(input, ',');
    if input == [] {
      assert pieces == [[]];
      assert Trim([]) == [];
      assert TrimNonBlank([[]]) == [];
    }
    TrimNonBlankIsOrderedFilter(pieces);
    var idx :| RemovesOnly(TrimEach(pieces), TrimNonBlank(pieces), idx, []);
    RemovesOnlyMembers(TrimEach(pieces), ParseList(input), idx, []);
  }

  /** The ordinary case: two skills separated by a comma and a space. */
  lemma ParseTwoSkills()
    ensures ParseList("JavaScript, Python") == ["JavaScript", "Python"]
  {
    var a: string := "JavaScript";
    var b: string := "Python";
    assert "JavaScript, Python" == a + "," + (" " + b);
    assert Trim(" " + b) == b by {
      assert (" " + b)[1..] == b;
      assert TrimStart(" " + b) == TrimStart(b) == b;
      assert TrimEnd(b) == b;
    }
    assert Trim(a) == a by {
      assert TrimStart(a) == a;
      assert TrimEnd(a) == a;
    }
    ParseTwoPieces(a, " " + b, b);
  }

  /** `a,b` with comma-free, non-blank pieces parses to their trimmed forms. */
  lemma ParseTwoPieces(a: string, b: string, tb: string)
    requires ',' !in a && ',' !in b && Trim(a) == a && a != [] && Trim(b) == tb && tb != []
    ensures ParseList(a + "," + b) == [a, tb]
  {
    var input := a + "," + b;
    SplitJoin([a, b], ',');
    assert Join([a, b], ',') == input by {
      assert [a, b][1..] == [b];
    }
    assert Split(input, ',') == [a, b];
    assert TrimNonBlank([b]) == [tb] by {
      assert [b][1..] == [];
    }
    assert TrimNonBlank([a, b]) == [a] + TrimNonBlank([b]) by {
      assert [a, b][1..] == [b];
    }
  }

  lemma {:induction false} TrimNonBlankOfItems(xs: seq<string>)
    requires forall k | 0 <= k < |xs| :: IsListItem(xs[k])
    ensures TrimNonBlank(xs) == xs
    decreases |xs|
  {
    if xs != [] {
      var t := Trim(xs[0]);
      TrimmedIsFixpoint(xs[0]);
      assert t == xs[0] && t != [];
      assert TrimNonBlank(xs) == [t] + TrimNonBlank(xs[1..]);
      TrimNonBlankOfItems(xs[1..]);
      assert xs == [xs[0]] + xs[1..];
    }
  }

  /** Parsing a comma-joined list of well-formed entries gives the entries
      back, in order. */
  lemma {:induction false} ParseJoinedList(xs: seq<string>)
    requires |xs| >= 1
    requires forall k | 0 <= k < |xs| :: IsListItem(xs[k])
    ensures ParseList(Join(xs, ',')) == xs
  {
    SplitJoin(xs, ',');
    TrimNonBlankOfItems(xs);
  }

  /** Text without commas yields its trimmed self, or nothing when blank. */
  lemma ParseSingleEntry(input: string)
    requires ',' !in input
    ensures ParseList(input) == (if Trim(input) == [] then [] else [Trim(input)])
  {
    var pieces := Split(input, ',');
    JoinSplit(input, ',');
    if |pieces| > 1 {
      assert false;
    }
    assert pieces == [input];
    assert pieces[1..] == [];
  }

  /** The project the form builds: one, when both title and description
      are non-empty after trimming, carrying the parsed links. */
  function BuildProjects(title: string, description: string, linksInput: string): (r: seq<Project>)
    ensures |r| == (if title != [] && description != [] then 1 else 0)
    ensures |r| == 1 ==>
      r[0].title == title && r[0].description == description && r[0].links == Some(ParseList(linksInput))
  {
    if title != [] && description != [] then
      [Project(title, description, Some(ParseList(linksInput)))]
    else
      []
  }

  /** The submit handler's data: `None` when it stops at the required-field
      check (no request is sent). */
  function Submit(f: Form): (r: Option<ProfileData>)
    ensures r.None? <==> Trim(f.name) == [] || Trim(f.email) == []
    ensures r.Some? ==>
      && r.value.name == Trim(f.name) && r.value.name != [] && IsTrimmed(r.value.name)
      && r.value.email == Trim(f.email) && r.value.email != [] && IsTrimmed(r.value.email)
      && (r.value.education.None? <==> Trim(f.education) == [])
      && (r.value.education.Some? ==>
            r.value.education.value == Trim(f.education) && r.value.education.value != [])
      && r.value.skills == ParseList(Trim(f.skills))
      && (forall k | 0 <= k < |r.value.skills| :: IsListItem(r.value.skills[k]))
      && |r.value.projects| == (if Trim(f.projectTitle) != [] && Trim(f.projectDescription) != [] then 1 else 0)
      && (|r.value.projects| == 1 ==>
            r.value.projects[0]
            == Project(Trim(f.projectTitle), Trim(f.projectDescription), Some(ParseList(Trim(f.projectLinks)))))
  {
    var name := Trim(f.name);
    var email := Trim(f.email);
    var education := Trim(f.education);
    if name == [] || email == [] then None
    else
      Some(ProfileData(
        name, email,
        if education == [] then None else Some(education),
        ParseList(Trim(f.skills)),
        BuildProjects(Trim(f.projectTitle), Trim(f.projectDescription), Trim(f.projectLinks))))
  }

  /** The body as the server receives it: every field present, so a body
      with a name and an email is stored exactly as sent. */
  function AsRequest(d: ProfileData): (r: ProfileInput)
    ensures HasRequiredFields(r) <==> d.name != [] && d.email != []
    ensures HasRequiredFields(r) ==>
      ToProfile(r) == Profile(d.name, d.email, d.education, d.skills, d.projects)
  {
    ProfileInput(Some(d.name), Some(d.email), d.education, Some(d.skills), Some(d.projects))
  }

  /** Whatever the form submits passes the server's presence check, and
      when storage neither fails nor already holds the email, the new row
      reads back exactly as the client sent it. */
  lemma SubmittedFormRoundTrip(f: Form, s: Store)
    requires Submit(f).Some?
    ensures CreateProfile(AsRequest(Submit(f).value), s, None).response.status != BAD_REQUEST
    ensures
      var d := Submit(f).value;
      var o := CreateProfile(AsRequest(d), s, None);
      !EmailTaken(s, d.email) ==>
        && o.response.status == CREATED
        && GetProfile(o.response.body.id, o.store, None)
           == Response(OK, ProfileBody(s.next, Profile(d.name, d.email, d.education, d.skills, d.projects)))
  {
  }
}
