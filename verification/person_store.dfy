/**
 The backend's minimal-API handlers (`Program.cs`) as pure transitions on the
 People table. A handler that writes returns its reply together with the new
 table; one that only reads returns its reply. The HTTP status of each reply
 is the constructor's name: 200 `Ok`, 201 `Created`, 204 `NoContent`, 404
 `NotFound`.
 */
module PersonStore {
  import opened Nullable
  import opened People

  /**
   The body of POST /api/people and of PUT /api/people/{id}: the source
   declares two records with identical fields, `CreatePersonRequest` and
   `UpdatePersonRequest`. No field is checked by the handlers.
   */
  datatype PersonRequest = PersonRequest(
    name: string,
    kind: string,
    status: string,
    notes: string,
    location: Option<string>,
    connections: Option<string>)

  /**
   The People table: rows by primary key, and the key the next insert will
   receive. Keys come from SQLite's autoincrement, which only moves forward,
   so `nextId` is one past every key ever handed out, deleted rows included.
   */
  datatype Store = Store(people: map<int, Person>, nextId: int)

  datatype Reply = Ok(person: Person) | Created(person: Person) | NoContent | NotFound

  /** The body of GET /api/people/stats. */
  datatype Stats = Stats(total: nat, bestFriend: nat, friend: nat, acquaintance: nat)

  /** Every row is filed under its own `Id`. */
  ghost predicate KeyedById(people: map<int, Person>)
  {
    forall id :: id in people ==> people[id].id == id
  }

  /** The table is well formed: rows filed under their ids, all ids issued before `nextId`. */
  ghost predicate Valid(s: Store)
  {
    && KeyedById(s.people)
    && 1 <= s.nextId
    && forall id :: id in s.people ==> 1 <= id < s.nextId
  }

  /** Ids of the rows whose status is exactly `status`. */
  function WithStatus(s: Store, status: string): set<int>
  {
    set id | id in s.people && s.people[id].status == status
  }

  /** The rows whose id lies in `[lo, hi)`, in ascending id order. */
  function ListRange(people: map<int, Person>, lo: int, hi: int): seq<Person>
    decreases hi - lo
  {
    if lo >= hi then []
    else if lo in people then [people[lo]] + ListRange(people, lo + 1, hi)
    else ListRange(people, lo + 1, hi)
  }

  /** Each entry of `r` is the row stored under its id, and that id lies in `[lo, hi)`. */
  ghost predicate StoredRowsIn(r: seq<Person>, people: map<int, Person>, lo: int, hi: int)
  {
    forall i :: 0 <= i < |r| ==> r[i].id in people && people[r[i].id] == r[i] && lo <= r[i].id < hi
  }

  ghost predicate AscendingIds(r: seq<Person>)
  {
    forall i, j :: 0 <= i < j < |r| ==> r[i].id < r[j].id
  }

  /** Every row whose id lies in `[lo, hi)` appears in `r`. */
  ghost predicate CoversRange(r: seq<Person>, people: map<int, Person>, lo: int, hi: int)
  {
    forall id :: id in people && lo <= id < hi ==> people[id] in r
  }

  /** The range listing holds stored rows only, in strictly ascending id order, and misses none. */
  lemma {:induction false} ListRangeFacts(people: map<int, Person>, lo: int, hi: int)
    requires KeyedById(people)
    ensures StoredRowsIn(ListRange(people, lo, hi), people, lo, hi)
    ensures AscendingIds(ListRange(people, lo, hi))
    ensures CoversRange(ListRange(people, lo, hi), people, lo, hi)
    decreases hi - lo
  {
    if lo < hi {
      ListRangeFacts(people, lo + 1, hi);
      var rest := ListRange(people, lo + 1, hi);
      if lo in people {
        var r := [people[lo]] + rest;
        assert ListRange(people, lo, hi) == r;
        assert forall i :: 1 <= i < |r| ==> r[i] == rest[i - 1];
        assert StoredRowsIn(r, people, lo, hi);
        assert AscendingIds(r);
      }
    }
  }

  lemma {:induction false} ListRangeLength(people: map<int, Person>, lo: int, hi: int)
    requires KeyedById(people)
    ensures |ListRange(people, lo, hi)| == |set id | id in people && lo <= id < hi|
    decreases hi - lo
  {
    var ids := set id | id in people && lo <= id < hi;
    if lo >= hi {
      assert ids == {};
    } else {
      var later := set id | id in people && lo + 1 <= id < hi;
      ListRangeLength(people, lo + 1, hi);
      if lo in people {
        assert ids == {lo} + later;
      } else {
        assert ids == later;
      }
    }
  }

  /** Number of people in `ps` whose status is exactly `status`. */
  function CountStatus(ps: seq<Person>, status: string): nat
  {
    if |ps| == 0 then 0
    else (if ps[0].status == status then 1 else 0) + CountStatus(ps[1..], status)
  }

  lemma CountStatusCons(p: Person, ps: seq<Person>, status: string)
    ensures CountStatus([p] + ps, status) == (if p.status == status then 1 else 0) + CountStatus(ps, status)
  {
    assert ([p] + ps)[1..] == ps;
  }

  /** Ids in `[lo, hi)` whose row has status `status`. */
  ghost function IdsWithStatus(people: map<int, Person>, lo: int, hi: int, status: string): set<int>
  {
    set id | id in people && lo <= id < hi && people[id].status == status
  }

  lemma IdsWithStatusSplit(people: map<int, Person>, lo: int, hi: int, status: string)
    requires lo < hi
    ensures IdsWithStatus(people, lo, hi, status)
            == (if lo in people && people[lo].status == status then {lo} else {})
               + IdsWithStatus(people, lo + 1, hi, status)
  {
  }

  lemma {:induction false} ListRangeStatusCount(people: map<int, Person>, lo: int, hi: int, status: string)
    requires KeyedById(people)
    ensures CountStatus(ListRange(people, lo, hi), status) == |IdsWithStatus(people, lo, hi, status)|
    decreases hi - lo
  {
    if lo >= hi {
      assert IdsWithStatus(people, lo, hi, status) == {};
    } else {
      ListRangeStatusCount(people, lo + 1, hi, status);
      IdsWithStatusSplit(people, lo, hi, status);
      if lo in people {
        CountStatusCons(people[lo], ListRange(people, lo + 1, hi), status);
      }
    }
  }

  /** Three different statuses cannot together count more people than there are. */
  lemma {:induction false} DistinctStatusCountsBounded(ps: seq<Person>, a: string, b: string, c: string)
    requires a != b && b != c && a != c
    ensures CountStatus(ps, a) + CountStatus(ps, b) + CountStatus(ps, c) <= |ps|
  {
    if |ps| > 0 {
      DistinctStatusCountsBounded(ps[1..], a, b, c);
    }
  }

  /** GET /api/people: every row exactly once (listed by ascending id). */
  function GetAll(s: Store): (r: seq<Person>)
    requires Valid(s)
    ensures |r| == |s.people|
    ensures forall i :: 0 <= i < |r| ==> r[i].id in s.people && s.people[r[i].id] == r[i]
    ensures forall id :: id in s.people ==> s.people[id] in r
    ensures forall i, j :: 0 <= i < j < |r| ==> r[i].id < r[j].id
  {
    ListRangeFacts(s.people, 1, s.nextId);
    ListRangeLength(s.people, 1, s.nextId);
    assert (set id | id in s.people && 1 <= id < s.nextId) == s.people.Keys;
    ListRange(s.people, 1, s.nextId)
  }

  /** GET /api/people/{id}: the row under `id`, or 404. */
  function GetById(s: Store, id: int): (r: Reply)
    requires Valid(s)
    ensures r.Ok? || r.NotFound?
    ensures r.Ok? <==> id in s.people
    ensures r.Ok? ==> r.person == s.people[id] && r.person.id == id
  {
    if id in s.people then Ok(s.people[id]) else NotFound
  }

  /**
   POST /api/people: a new row under a key never issued before, with
   `MetSince` read from the clock and a missing connections list stored as
   `[]`. Nothing is validated.
   */
  function Create(s: Store, req: PersonRequest, now: int): (r: (Reply, Store))
    requires Valid(s)
    ensures Valid(r.1)
    ensures r.0.Created?
    ensures r.0.person.id !in s.people && r.0.person.id >= s.nextId
    ensures r.1.people == s.people[r.0.person.id := r.0.person]
    ensures |r.1.people| == |s.people| + 1
    ensures r.1.nextId > r.0.person.id
    ensures r.0.person.name == req.name && r.0.person.kind == req.kind
    ensures r.0.person.status == req.status && r.0.person.notes == req.notes
    ensures r.0.person.location == req.location
    ensures r.0.person.metSince == ClockReading(now)
    ensures req.connections.Some? ==> r.0.person.connections == req.connections
    ensures req.connections.None? ==> r.0.person.connections == Some(NoConnections)
  {
    var p := Person(s.nextId, req.name, req.kind, req.status, req.notes, req.location,
                    ClockReading(now), Some(Coalesce(req.connections, NoConnections)));
    (Created(p), Store(s.people[p.id := p], s.nextId + 1))
  }

  /**
   PUT /api/people/{id}: replaces every field but `Id` and `MetSince`, with a
   missing connections list stored as `[]`; 404 and no change when the row
   does not exist.
   */
  function Update(s: Store, id: int, req: PersonRequest): (r: (Reply, Store))
    requires Valid(s)
    ensures Valid(r.1)
    ensures r.0.Ok? || r.0.NotFound?
    ensures id !in s.people ==> r == (NotFound, s)
    ensures id in s.people ==> r.0.Ok? && r.1 == Store(s.people[id := r.0.person], s.nextId)
    ensures r.0.Ok? ==> r.0.person.id == id && r.0.person.metSince == s.people[id].metSince
    ensures r.0.Ok? ==> r.0.person.name == req.name && r.0.person.kind == req.kind
    ensures r.0.Ok? ==> r.0.person.status == req.status && r.0.person.notes == req.notes
    ensures r.0.Ok? ==> r.0.person.location == req.location
    ensures r.0.Ok? && req.connections.Some? ==> r.0.person.connections == req.connections
    ensures r.0.Ok? && req.connections.None? ==> r.0.person.connections == Some(NoConnections)
  {
    if id !in s.people then (NotFound, s)
    else
      var p := s.people[id].(name := req.name, kind := req.kind, status := req.status,
                             notes := req.notes, location := req.location,
                             connections := Some(Coalesce(req.connections, NoConnections)));
      (Ok(p), Store(s.people[id := p], s.nextId))
  }

  /** PUT /api/people/{id}/status: only `Status` changes; 404 and no change when absent. */
  function UpdateStatus(s: Store, id: int, status: string): (r: (Reply, Store))
    requires Valid(s)
    ensures Valid(r.1)
    ensures r.0.Ok? || r.0.NotFound?
    ensures id !in s.people ==> r == (NotFound, s)
    ensures id in s.people ==> r.0 == Ok(s.people[id].(status := status))
    ensures id in s.people ==> r.1 == Store(s.people[id := r.0.person], s.nextId)
  {
    if id !in s.people then (NotFound, s)
    else
      var p := s.people[id].(status := status);
      (Ok(p), Store(s.people[id := p], s.nextId))
  }

  /**
   DELETE /api/people/{id}: a hard delete answered with 204; 404 and no
   change when absent. The key counter does not move back.
   */
  function Delete(s: Store, id: int): (r: (Reply, Store))
    requires Valid(s)
    ensures Valid(r.1)
    ensures r.0.NoContent? || r.0.NotFound?
    ensures id !in s.people ==> r == (NotFound, s)
    ensures id in s.people ==> r.0.NoContent? && r.1 == Store(s.people - {id}, s.nextId)
    ensures id !in r.1.people
    ensures id in s.people ==> |r.1.people| == |s.people| - 1
  {
    if id !in s.people then (NotFound, s)
    else (NoContent, Store(s.people - {id}, s.nextId))
  }

  /**
   GET /api/people/stats: the row count and, independently, the number of
   rows whose status is each of the three known values. These are filters,
   not a partition: a row with any other status is counted only in `total`.
   */
  function GetStats(s: Store): (r: Stats)
    requires Valid(s)
    ensures r.total == |s.people|
    ensures r.bestFriend == |WithStatus(s, BestFriend)|
    ensures r.friend == |WithStatus(s, Friend)|
    ensures r.acquaintance == |WithStatus(s, Acquaintance)|
    ensures r.bestFriend + r.friend + r.acquaintance <= r.total
  {
    var rows := GetAll(s);
    StatusCountIsFilter(s, BestFriend);
    StatusCountIsFilter(s, Friend);
    StatusCountIsFilter(s, Acquaintance);
    DistinctStatusCountsBounded(rows, BestFriend, Friend, Acquaintance);
    Stats(|rows|, CountStatus(rows, BestFriend), CountStatus(rows, Friend),
          CountStatus(rows, Acquaintance))
  }

  /** Counting a status over the listing is the same as filtering the table by it. */
  lemma StatusCountIsFilter(s: Store, status: string)
    requires Valid(s)
    ensures CountStatus(GetAll(s), status) == |WithStatus(s, status)|
  {
    ListRangeStatusCount(s.people, 1, s.nextId, status);
    assert IdsWithStatus(s.people, 1, s.nextId, status) == WithStatus(s, status);
  }

  /** Reading a row back after creating it returns what the create returned. */
  lemma GetAfterCreate(s: Store, req: PersonRequest, now: int)
    requires Valid(s)
    ensures var (reply, s') := Create(s, req, now); GetById(s', reply.person.id) == Ok(reply.person)
  {
  }

  /** After a delete the id reads as 404, and a later create never hands the id out again. */
  lemma DeletedIdStaysGone(s: Store, id: int, req: PersonRequest, now: int)
    requires Valid(s)
    requires id in s.people
    ensures var s' := Delete(s, id).1;
            && GetById(s', id) == NotFound
            && Create(s', req, now).0.person.id != id
  {
  }

  /** A second delete of the same id answers 404 and changes nothing. */
  lemma DeleteTwice(s: Store, id: int)
    requires Valid(s)
    ensures var s' := Delete(s, id).1; Delete(s', id) == (NotFound, s')
  {
  }

  /** `total` agrees with the length of GET /api/people in every state. */
  lemma StatsTotalIsListLength(s: Store)
    requires Valid(s)
    ensures GetStats(s).total == |GetAll(s)|
  {
  }

  /**
   Creating a row whose status is none of the three known values adds one to
   `total` and leaves the three status counts as they were.
   */
  lemma UnknownStatusCountsOnlyInTotal(s: Store, req: PersonRequest, now: int)
    requires Valid(s)
    requires req.status != BestFriend && req.status != Friend && req.status != Acquaintance
    ensures var before := GetStats(s); var after := GetStats(Create(s, req, now).1);
            after == before.(total := before.total + 1)
  {
    var s' := Create(s, req, now).1;
    var p := Create(s, req, now).0.person;
    assert WithStatus(s', BestFriend) == WithStatus(s, BestFriend);
    assert WithStatus(s', Friend) == WithStatus(s, Friend);
    assert WithStatus(s', Acquaintance) == WithStatus(s, Acquaintance);
  }

  /**
   A status change moves one row between status filters: the row's id leaves
   every other status's set and joins the new one's; no other row moves.
   */
  lemma UpdateStatusMovesOneRow(s: Store, id: int, status: string, other: string)
    requires Valid(s)
    requires id in s.people
    requires other != status
    ensures var s' := UpdateStatus(s, id, status).1;
            && WithStatus(s', status) == WithStatus(s, status) + {id}
            && WithStatus(s', other) == WithStatus(s, other) - {id}
  {
  }
}
