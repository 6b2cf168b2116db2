/**
 The page component (`App.tsx`): the relationship/type filter whose result
 feeds both the grid and the network map, and the save handler that turns a
 submitted form into a create or an update call on the backend.
 */
module PeopleView {
  import opened Nullable
  import opened People
  import opened PersonStore
  import opened PersonForm
  import opened IntArrayJson
  import opened ConnectionGraph

  /** The menu value that switches a filter off. */
  const All: string := "all"

  /** The filter callback: status and type each match, or their filter is off. */
  predicate Matches(p: Person, statusFilter: string, typeFilter: string)
  {
    (statusFilter == All || p.status == statusFilter) && (typeFilter == All || p.kind == typeFilter)
  }

  /** `a` is `b` with some entries left out and the rest in the same order. */
  predicate IsSubsequence<T(==)>(a: seq<T>, b: seq<T>)
  {
    if |a| == 0 then true
    else if |b| == 0 then false
    else if a[0] == b[0] then IsSubsequence(a[1..], b[1..])
    else IsSubsequence(a, b[1..])
  }

  /**
   `filteredPeople`: the people the filter callback accepts, in their
   original order, each kept as often as it occurs.
   */
  function FilterPeople(people: seq<Person>, statusFilter: string, typeFilter: string): (r: seq<Person>)
    ensures forall p :: p in r <==> p in people && Matches(p, statusFilter, typeFilter)
    ensures forall p :: multiset(r)[p] == if Matches(p, statusFilter, typeFilter) then multiset(people)[p] else 0
    ensures IsSubsequence(r, people)
  {
    if |people| == 0 then []
    else
      var rest := FilterPeople(people[1..], statusFilter, typeFilter);
      assert people == [people[0]] + people[1..];
      if Matches(people[0], statusFilter, typeFilter) then
        var r := [people[0]] + rest;
        assert r[1..] == rest;
        r
      else
        assert |rest| > 0 ==> rest[0] != people[0];
        rest
  }

  /** With both menus on "all" nothing is filtered out. */
  lemma {:induction false} FilterAllKeepsEveryone(people: seq<Person>)
    ensures FilterPeople(people, All, All) == people
  {
    if |people| > 0 {
      FilterAllKeepsEveryone(people[1..]);
      assert [people[0]] + people[1..] == people;
    }
  }

  /** Filtering an already filtered list again changes nothing. */
  lemma {:induction false} FilterIdempotent(people: seq<Person>, statusFilter: string, typeFilter: string)
    ensures var once := FilterPeople(people, statusFilter, typeFilter);
            FilterPeople(once, statusFilter, typeFilter) == once
  {
    if |people| > 0 {
      FilterIdempotent(people[1..], statusFilter, typeFilter);
      var rest := FilterPeople(people[1..], statusFilter, typeFilter);
      if Matches(people[0], statusFilter, typeFilter) {
        assert ([people[0]] + rest)[1..] == rest;
      }
    }
  }

  /** The two menus act independently: filtering by one and then the other is filtering by both. */
  lemma {:induction false} FiltersCompose(people: seq<Person>, statusFilter: string, typeFilter: string)
    ensures FilterPeople(FilterPeople(people, statusFilter, All), All, typeFilter)
            == FilterPeople(people, statusFilter, typeFilter)
  {
    if |people| > 0 {
      FiltersCompose(people[1..], statusFilter, typeFilter);
      var rest := FilterPeople(people[1..], statusFilter, All);
      if Matches(people[0], statusFilter, All) {
        assert ([people[0]] + rest)[1..] == rest;
      }
    }
  }

  /**
   The map view is drawn from the filtered list, so every edge it shows is an
   edge of the unfiltered graph; its targets may be people the filter hid.
   */
  lemma FilteredEdgesAreEdges(people: seq<Person>, statusFilter: string, typeFilter: string,
                              parse: string -> Parsed)
    ensures forall e :: e in Edges(FilterPeople(people, statusFilter, typeFilter), parse) ==>
              e in Edges(people, parse)
  {
    var shown := FilterPeople(people, statusFilter, typeFilter);
    forall e | e in Edges(shown, parse) ensures e in Edges(people, parse) {
      EdgeMembership(shown, parse, e);
      var i, k :| EdgeFor(shown, parse, e, i, k);
      var q := shown[i];
      assert q in people;
      var j :| 0 <= j < |people| && people[j] == q;
      assert EdgeFor(people, parse, e, j, k);
      EdgeMembership(people, parse, e);
    }
  }

  /** The request `peopleApi.create` / `update` send: every form field, none left out. */
  datatype ApiCall = CreateCall(body: PersonRequest) | UpdateCall(id: int, body: PersonRequest)

  /** The JSON body built from the form; location and connections are always present, maybe empty. */
  function RequestOf(f: FormData): PersonRequest
  {
    PersonRequest(f.name, f.kind, f.status, f.notes, Some(f.location), Some(f.connections))
  }

  /**
   `handleSavePerson`: update the selected person by id when the dialog was
   opened on one, create otherwise; the form data is the body either way.
   */
  function SaveCall(selected: Option<Person>, f: FormData): (c: ApiCall)
    ensures c.UpdateCall? <==> selected.Some?
    ensures c.UpdateCall? ==> c.id == selected.value.id
    ensures c.body.name == f.name && c.body.kind == f.kind && c.body.status == f.status
    ensures c.body.notes == f.notes
    ensures c.body.location == Some(f.location) && c.body.connections == Some(f.connections)
  {
    match selected
    case Some(p) => UpdateCall(p.id, RequestOf(f))
    case None => CreateCall(RequestOf(f))
  }

  /** The backend's handling of a call made by the page. */
  function Perform(s: Store, c: ApiCall, now: int): (r: (Reply, Store))
    requires Valid(s)
    ensures Valid(r.1)
    ensures c.CreateCall? ==> r.0.Created? && |r.1.people| == |s.people| + 1
    ensures c.CreateCall? ==> r.0.person.id !in s.people && r.1.people == s.people[r.0.person.id := r.0.person]
    ensures c.UpdateCall? ==> |r.1.people| == |s.people|
    ensures c.UpdateCall? && c.id !in s.people ==> r == (NotFound, s)
    ensures c.UpdateCall? && c.id in s.people ==>
              && r.0.Ok? && r.0.person.id == c.id
              && r.1 == Store(s.people[c.id := r.0.person], s.nextId)
    ensures r.0.Created? || r.0.Ok? ==>
              && r.0.person.name == c.body.name && r.0.person.kind == c.body.kind
              && r.0.person.status == c.body.status && r.0.person.notes == c.body.notes
              && r.0.person.location == c.body.location
              && r.0.person.connections == Some(Coalesce(c.body.connections, NoConnections))
  {
    match c
    case CreateCall(body) => Create(s, body, now)
    case UpdateCall(id, body) => Update(s, id, body)
  }

  /**
   The stored row after a person is opened in the dialog and saved without
   edits: the same row, except that a missing location is now stored as the
   empty string and a missing or empty connections text as `[]`.
   */
  function Resaved(p: Person): Person
  {
    p.(location := Some(OrIfFalsy(p.location, "")),
       connections := Some(OrIfFalsy(p.connections, NoConnections)))
  }

  /** Saving an unedited dialog writes back the row it was opened on, up to `Resaved`. */
  lemma SaveUneditedKeepsRow(s: Store, id: int, now: int)
    requires Valid(s)
    requires id in s.people
    ensures var p := s.people[id];
            Perform(s, SaveCall(Some(p), Prefill(Some(p))), now)
            == (Reply.Ok(Resaved(p)), Store(s.people[id := Resaved(p)], s.nextId))
  {
  }

  /** When location and connections are both non-empty, saving an unedited dialog changes nothing. */
  lemma SaveUneditedIsNoOp(s: Store, id: int, now: int)
    requires Valid(s)
    requires id in s.people
    requires Truthy(s.people[id].location) && Truthy(s.people[id].connections)
    ensures var p := s.people[id];
            Perform(s, SaveCall(Some(p), Prefill(Some(p))), now).1 == s
  {
    var p := s.people[id];
    SaveUneditedKeepsRow(s, id, now);
    assert Resaved(p) == p;
    assert s.people[id := p] == s.people;
  }

  /**
   Creating a person from the dialog and opening the new row in the dialog
   shows the form that was submitted, except that empty connections text
   comes back as `[]`.
   */
  lemma CreatedRowReopensAsSubmitted(s: Store, f: FormData, now: int)
    requires Valid(s)
    requires Submit(f) == Some(f)
    ensures var created := Perform(s, SaveCall(None, f), now).0.person;
            Prefill(Some(created)) == f.(connections := if f.connections == "" then NoConnections else f.connections)
  {
  }
}
