/**
 What the application shows right after startup: the statistics of the
 seeded table, the connection lists the seed rows hold, the network map
 drawn from them, and how deletion and filtering leave edges pointing at
 people who are not drawn. Connections are read with the reference parser
 `ParseIntArray`, which agrees with `JSON.parse` on integer arrays.
 */
module SeedScenarios {
  import opened Nullable
  import opened People
  import opened PersonStore
  import opened IntArrayJson
  import opened ConnectionGraph
  import opened PeopleView
  import opened Seed

  /** The ids each seeded person lists as connections. */
  function SeedTargets(index: nat): seq<int>
    requires index < 8
  {
    match index
    case 0 => [2, 3]
    case 1 => [1, 4, 5]
    case 2 => [1]
    case 3 => [2, 5]
    case 4 => [2, 4]
    case 5 => []
    case 6 => [8]
    case _ => [7]
  }

  /** Every seeded connections text is what `JSON.stringify` writes for the listed ids. */
  lemma SeedConnectionsText(index: nat, startup: int)
    requires index < 8
    ensures SeedRow(index, startup).connections == Some(FormatIntArray(SeedTargets(index)))
  {
    var ts := SeedTargets(index);
    match index
    case 0 =>
      assert FormatElements([3]) == "3"; assert FormatElements(ts) == "2,3";
      assert FormatIntArray(ts) == "[2,3]";
    case 1 =>
      assert FormatElements([5]) == "5"; assert FormatElements([4, 5]) == "4,5";
      assert FormatElements(ts) == "1,4,5"; assert FormatIntArray(ts) == "[1,4,5]";
    case 2 => assert FormatElements(ts) == "1"; assert FormatIntArray(ts) == "[1]";
    case 3 =>
      assert FormatElements([5]) == "5"; assert FormatElements(ts) == "2,5";
      assert FormatIntArray(ts) == "[2,5]";
    case 4 =>
      assert FormatElements([4]) == "4"; assert FormatElements(ts) == "2,4";
      assert FormatIntArray(ts) == "[2,4]";
    case 5 => assert FormatElements(ts) == ""; assert FormatIntArray(ts) == "[]";
    case 6 => assert FormatElements(ts) == "8"; assert FormatIntArray(ts) == "[8]";
    case _ => assert FormatElements(ts) == "7"; assert FormatIntArray(ts) == "[7]";
  }

  /** So every seeded connections text parses to the listed ids, and the map draws an edge to each. */
  lemma SeedConnectionsParse(index: nat, startup: int)
    requires index < 8
    ensures SeedRow(index, startup).connections.Some?
    ensures ParseIntArray(SeedRow(index, startup).connections.value) == Parsed.Ok(SeedTargets(index))
    ensures Targets(SeedRow(index, startup), ParseIntArray) == SeedTargets(index)
  {
    SeedConnectionsText(index, startup);
    ParseFormatRoundTrip(SeedTargets(index));
  }

  /** The listed ids lie in 1 to 8, and none is the lister's own id. */
  lemma SeedTargetsInRange(index: nat)
    requires index < 8
    ensures forall t :: t in SeedTargets(index) ==> 1 <= t <= 8 && t != index + 1
  {
  }

  /** Every seeded connection names a seeded row, and nobody lists themselves. */
  lemma SeedTargetsAreOtherSeededIds(index: nat, startup: int)
    requires index < 8
    ensures forall t :: t in Targets(SeedRow(index, startup), ParseIntArray) ==>
              t in Startup(startup).people && t != SeedRow(index, startup).id
  {
    var s := Startup(startup);
    var ts := Targets(SeedRow(index, startup), ParseIntArray);
    SeedConnectionsParse(index, startup);
    SeedTargetsInRange(index);
    forall t | t in ts ensures t in s.people {
      assert t in {1, 2, 3, 4, 5, 6, 7, 8};
    }
  }

  /** In a strictly ascending listing of ids from 1 upward, each id is at least its position plus one. */
  lemma {:induction false} IdAtLeastPosition(r: seq<Person>, i: nat)
    requires AscendingIds(r)
    requires forall a :: 0 <= a < |r| ==> 1 <= r[a].id
    requires i < |r|
    ensures r[i].id >= i + 1
  {
    if i > 0 {
      IdAtLeastPosition(r, i - 1);
    }
  }

  /** In a strictly ascending listing of ids up to its length, each id is at most its position plus one. */
  lemma {:induction false} IdAtMostPosition(r: seq<Person>, i: nat)
    requires AscendingIds(r)
    requires forall a :: 0 <= a < |r| ==> r[a].id <= |r|
    requires i < |r|
    ensures r[i].id <= i + 1
    decreases |r| - i
  {
    if i + 1 < |r| {
      IdAtMostPosition(r, i + 1);
    }
  }

  /** A table filed under exactly the ids 1 to n holds n rows. */
  lemma {:induction false} NumberedTableSize(people: map<int, Person>, n: nat)
    requires forall id :: id in people <==> 1 <= id <= n
    ensures |people| == n
  {
    if n > 0 {
      var fewer := people - {n};
      NumberedTableSize(fewer, n - 1);
      assert people.Keys == fewer.Keys + {n};
    } else {
      assert people == map[];
    }
  }

  /** A table filed under exactly the ids 1 to n lists its rows in id order. */
  lemma ListingOfNumberedTable(s: Store, rows: seq<Person>)
    requires Valid(s)
    requires forall id :: id in s.people <==> 1 <= id <= |rows|
    requires forall i :: 0 <= i < |rows| ==> s.people[i + 1] == rows[i]
    ensures GetAll(s) == rows
  {
    var r := GetAll(s);
    NumberedTableSize(s.people, |rows|);
    forall i | 0 <= i < |r| ensures r[i] == rows[i] {
      IdAtLeastPosition(r, i);
      IdAtMostPosition(r, i);
    }
  }

  /** GET /api/people right after startup lists the seed rows in declaration order. */
  lemma StartupListing(startup: int)
    ensures GetAll(Startup(startup)) == SeedRows(startup)
  {
    var s := Startup(startup);
    var rows := SeedRows(startup);
    assert forall id :: id in s.people <==> 1 <= id <= |rows|;
    ListingOfNumberedTable(s, rows);
  }

  /** The seeded relationship groups: three best friends, four friends, one acquaintance. */
  lemma StartupStatusGroups(startup: int)
    ensures WithStatus(Startup(startup), BestFriend) == {1, 2, 5}
    ensures WithStatus(Startup(startup), Friend) == {3, 4, 7, 8}
    ensures WithStatus(Startup(startup), Acquaintance) == {6}
  {
    var s := Startup(startup);
    forall i | 0 <= i < 8 ensures s.people[i + 1] == SeedRow(i, startup) { }
  }

  /** Sizes of the seeded groups. */
  lemma GroupSizes()
    ensures |{1, 2, 5}| == 3 && |{3, 4, 7, 8}| == 4 && |{6}| == 1
  {
  }

  /** GET /api/people/stats right after startup. */
  lemma StartupStats(startup: int)
    ensures GetStats(Startup(startup)) == Stats(8, 3, 4, 1)
  {
    var s := Startup(startup);
    StartupStatusGroups(startup);
    NumberedTableSize(s.people, 8);
    GroupSizes();
  }

  /** Peeling one person off the front of a suffix of the list. */
  lemma TargetCountStep(rows: seq<Person>, i: nat, parse: string -> Parsed)
    requires i < |rows|
    ensures TargetCount(rows[i..], parse) == |Targets(rows[i], parse)| + TargetCount(rows[i + 1..], parse)
  {
    assert rows[i..][0] == rows[i];
    assert rows[i..][1..] == rows[i + 1..];
  }

  /** Eight rows whose parsed lists are as long as the seeded ones hold twelve targets in all. */
  lemma SeedTargetTotal(rows: seq<Person>, parse: string -> Parsed)
    requires |rows| == 8
    requires forall i :: 0 <= i < 8 ==> |Targets(rows[i], parse)| == |SeedTargets(i)|
    ensures TargetCount(rows, parse) == 12
  {
    assert rows[8..] == [];
    TargetCountStep(rows, 7, parse);
    assert TargetCount(rows[7..], parse) == 1 by { assert |SeedTargets(7)| == 1; }
    TargetCountStep(rows, 6, parse);
    assert TargetCount(rows[6..], parse) == 2 by { assert |SeedTargets(6)| == 1; }
    TargetCountStep(rows, 5, parse);
    assert TargetCount(rows[5..], parse) == 2 by { assert |SeedTargets(5)| == 0; }
    TargetCountStep(rows, 4, parse);
    assert TargetCount(rows[4..], parse) == 4 by { assert |SeedTargets(4)| == 2; }
    TargetCountStep(rows, 3, parse);
    assert TargetCount(rows[3..], parse) == 6 by { assert |SeedTargets(3)| == 2; }
    TargetCountStep(rows, 2, parse);
    assert TargetCount(rows[2..], parse) == 7 by { assert |SeedTargets(2)| == 1; }
    TargetCountStep(rows, 1, parse);
    assert TargetCount(rows[1..], parse) == 10 by { assert |SeedTargets(1)| == 3; }
    TargetCountStep(rows, 0, parse);
    assert TargetCount(rows[0..], parse) == 12 by { assert |SeedTargets(0)| == 2; }
    assert rows[0..] == rows;
  }

  /** The map drawn right after startup has twelve edges, one per seeded connection. */
  lemma StartupEdgeCount(startup: int)
    ensures |Edges(SeedRows(startup), ParseIntArray)| == 12
  {
    var rows := SeedRows(startup);
    forall i | 0 <= i < 8 ensures |Targets(rows[i], ParseIntArray)| == |SeedTargets(i)| {
      SeedConnectionsParse(i, startup);
    }
    SeedTargetTotal(rows, ParseIntArray);
  }

  /** A listing that holds Alice draws her edges to Bob and to Carol, whether or not they are listed. */
  lemma AliceEdgesDrawn(shown: seq<Person>, startup: int)
    requires SeedRow(0, startup) in shown
    ensures Edge(1, 2, BestFriendColor) in Edges(shown, ParseIntArray)
    ensures Edge(1, 3, BestFriendColor) in Edges(shown, ParseIntArray)
  {
    SeedConnectionsParse(0, startup);
    var j :| 0 <= j < |shown| && shown[j] == SeedRow(0, startup);
    assert EdgeFor(shown, ParseIntArray, Edge(1, 2, BestFriendColor), j, 0);
    assert EdgeFor(shown, ParseIntArray, Edge(1, 3, BestFriendColor), j, 1);
    EdgeMembership(shown, ParseIntArray, Edge(1, 2, BestFriendColor));
    EdgeMembership(shown, ParseIntArray, Edge(1, 3, BestFriendColor));
  }

  /** Right after startup the map shows Alice's two edges. */
  lemma StartupEdgesOfAlice(startup: int)
    ensures Edge(1, 2, BestFriendColor) in Edges(SeedRows(startup), ParseIntArray)
    ensures Edge(1, 3, BestFriendColor) in Edges(SeedRows(startup), ParseIntArray)
  {
    var rows := SeedRows(startup);
    assert rows[0] == SeedRow(0, startup);
    AliceEdgesDrawn(rows, startup);
  }

  /** Frank's connections text is the empty array, so he is drawn without edges. */
  lemma FrankDrawsNoEdges(startup: int)
    ensures PersonEdges(SeedRow(5, startup), ParseIntArray) == []
  {
    var frank := SeedRow(5, startup);
    SeedConnectionsParse(5, startup);
    assert Targets(frank, ParseIntArray) == [];
    assert |PersonEdges(frank, ParseIntArray)| == 0;
  }

  /**
   Deleting Carol does not touch the other rows' connections text: the map
   still derives Alice's edge to id 3, which now has no node.
   */
  lemma DeleteLeavesDanglingEdge(startup: int)
    ensures var s := Delete(Startup(startup), 3).1;
            var shown := GetAll(s);
            && Edge(1, 3, BestFriendColor) in Edges(shown, ParseIntArray)
            && forall i :: 0 <= i < |shown| ==> Nodes(shown)[i].id != 3
  {
    var s0 := Startup(startup);
    var s := Delete(s0, 3).1;
    var shown := GetAll(s);
    assert s.people[1] == SeedRow(0, startup);
    AliceEdgesDrawn(shown, startup);
  }

  /** Filtering a listing to one status keeps exactly the rows of that status group. */
  lemma FilterShowsGroup(s: Store, status: string)
    requires Valid(s)
    requires status != All
    ensures (set p | p in FilterPeople(GetAll(s), status, All) :: p.id) == WithStatus(s, status)
  {
    var listed := GetAll(s);
    var shown := FilterPeople(listed, status, All);
    var ids := set p | p in shown :: p.id;
    var group := WithStatus(s, status);
    forall id | id in ids ensures id in group {
      var p :| p in shown && p.id == id;
      var i :| 0 <= i < |listed| && listed[i] == p;
      assert Matches(p, status, All);
    }
    forall id | id in group ensures id in ids {
      var p := s.people[id];
      assert p in listed;
      assert p in shown;
    }
    assert ids == group;
  }

  /** Filtering to best friends right after startup lists Alice, Bob and Emma. */
  lemma BestFriendFilterShows(startup: int)
    ensures (set p | p in FilterPeople(GetAll(Startup(startup)), BestFriend, All) :: p.id) == {1, 2, 5}
  {
    StartupStatusGroups(startup);
    FilterShowsGroup(Startup(startup), BestFriend);
  }

  /** A person left out of a listing has no node in the map drawn from it. */
  lemma NoNodeForUnlisted(shown: seq<Person>, id: int)
    requires id !in (set p | p in shown :: p.id)
    ensures forall i :: 0 <= i < |shown| ==> Nodes(shown)[i].id != id
  {
    forall i | 0 <= i < |shown| ensures Nodes(shown)[i].id != id {
      assert shown[i] in shown;
    }
  }

  /** Alice is among the best friends the filter keeps. */
  lemma AliceIsShownAsBestFriend(startup: int)
    ensures SeedRow(0, startup) in FilterPeople(GetAll(Startup(startup)), BestFriend, All)
  {
    var s := Startup(startup);
    assert s.people[1] in GetAll(s);
  }

  /**
   Yet Alice's edge to Carol is still derived from her row, although Carol
   is not listed (`BestFriendFilterShows`) and so has no node
   (`NoNodeForUnlisted`).
   */
  lemma BestFriendFilterDangles(startup: int)
    ensures Edge(1, 3, BestFriendColor) in Edges(FilterPeople(GetAll(Startup(startup)), BestFriend, All), ParseIntArray)
  {
    var shown := FilterPeople(GetAll(Startup(startup)), BestFriend, All);
    AliceIsShownAsBestFriend(startup);
    AliceEdgesDrawn(shown, startup);
  }

  /** A text whose first non-blank character is not `[` is not a JSON array, so it does not parse. */
  lemma NotAnArrayFails(s: string)
    requires SkipWhitespace(s) == "" || SkipWhitespace(s)[0] != '['
    ensures ParseIntArray(s) == Fail
  {
  }

  /**
   The map's `catch`: a person whose connections text is not an array, such
   as "not json", contributes no edges and the derivation goes on.
   */
  lemma NotAnArrayDrawsNoEdges(p: Person, rest: seq<Person>)
    requires p.connections.Some?
    requires SkipWhitespace(p.connections.value) == "" || SkipWhitespace(p.connections.value)[0] != '['
    ensures PersonEdges(p, ParseIntArray) == []
    ensures Edges([p] + rest, ParseIntArray) == Edges(rest, ParseIntArray)
  {
    NotAnArrayFails(p.connections.value);
    assert ([p] + rest)[0] == p && ([p] + rest)[1..] == rest;
  }

  /** The literal case: "not json" yields no edges. */
  lemma NotJsonDrawsNoEdges(p: Person)
    requires p.connections == Some("not json")
    ensures PersonEdges(p, ParseIntArray) == []
  {
    assert SkipWhitespace("not json") == "not json";
    NotAnArrayDrawsNoEdges(p, []);
  }
}
