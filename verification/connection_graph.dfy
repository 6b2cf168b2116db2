/**
 The network-map view (`EquipmentFlow.tsx`): one node per person on a
 three-column grid, and one directed edge per entry of each person's parsed
 connections list. The `JSON.parse` step is a parameter, `parse`, so every
 statement here holds whatever that parser does.
 */
module ConnectionGraph {
  import opened Nullable
  import opened People
  import opened IntArrayJson

  const BestFriendColor: string := "#4caf50"
  const FriendColor: string := "#2196f3"
  const AcquaintanceColor: string := "#ff9800"
  const DefaultColor: string := "#9e9e9e"

  /** Grid layout of the nodes. */
  const Columns: nat := 3
  const ColumnWidth: nat := 220
  const RowHeight: nat := 200
  const Margin: nat := 50

  datatype Position = Position(x: int, y: int)

  /**
   A ReactFlow node; `caption` is its `data.label`. Its id is
   `person.id.toString()`; since that conversion
   is injective, the number itself is kept.
   */
  datatype Node = Node(id: int, caption: string, person: Person, position: Position)

  /**
   A ReactFlow edge with its stroke colour. Its id `${source}-${target}` is a
   function of the pair and is not kept; repeated pairs share one id.
   */
  datatype Edge = Edge(source: int, target: int, stroke: string)

  /**
   `getNodeColor`: the colour of a status, defined for every string, with
   grey for anything but the three known statuses.
   */
  function NodeColor(status: string): (c: string)
    ensures c == BestFriendColor <==> status == BestFriend
    ensures c == FriendColor <==> status == Friend
    ensures c == AcquaintanceColor <==> status == Acquaintance
    ensures c == DefaultColor <==> status != BestFriend && status != Friend && status != Acquaintance
  {
    if status == BestFriend then BestFriendColor
    else if status == Friend then FriendColor
    else if status == Acquaintance then AcquaintanceColor
    else DefaultColor
  }

  /** Where the node at `index` of the input is drawn. */
  function GridPosition(index: nat): Position
  {
    Position((index % Columns) * ColumnWidth + Margin, (index / Columns) * RowHeight + Margin)
  }

  /** The grid has three columns at fixed offsets, and rows start at the margin. */
  lemma GridPositionBounds(index: nat)
    ensures GridPosition(index).x in {50, 270, 490}
    ensures GridPosition(index).y >= Margin
  {
  }

  /** The input position a grid cell belongs to. */
  function GridIndex(p: Position): int
  {
    ((p.y - Margin) / RowHeight) * Columns + (p.x - Margin) / ColumnWidth
  }

  /** Every input position can be read back from where its node is drawn. */
  lemma GridIndexOfPosition(index: nat)
    ensures GridIndex(GridPosition(index)) == index
  {
    var column, row := index % Columns, index / Columns;
    assert (column * ColumnWidth) / ColumnWidth == column;
    assert (row * RowHeight) / RowHeight == row;
    assert row * Columns + column == index;
  }

  /** Different input positions are drawn at different places. */
  lemma GridPositionInjective(i: nat, j: nat)
    requires i != j
    ensures GridPosition(i) != GridPosition(j)
  {
    GridIndexOfPosition(i);
    GridIndexOfPosition(j);
  }

  /**
   `initialNodes`: one node per person, in input order, labelled with the
   name, the node for input position `i` drawn at grid cell `i`, so no two
   nodes overlap.
   */
  function Nodes(people: seq<Person>): (r: seq<Node>)
    ensures |r| == |people|
    ensures forall i :: 0 <= i < |r| ==> r[i].id == people[i].id && r[i].person == people[i]
    ensures forall i :: 0 <= i < |r| ==> r[i].caption == people[i].name
    ensures forall i :: 0 <= i < |r| ==> r[i].position == GridPosition(i)
    ensures forall i, j :: 0 <= i < j < |r| ==> r[i].position != r[j].position
  {
    var r := seq(|people|, i requires 0 <= i < |people| =>
                   Node(people[i].id, people[i].name, people[i], GridPosition(i)));
    assert forall i, j :: 0 <= i < j < |r| ==> r[i].position != r[j].position by {
      forall i, j | 0 <= i < j < |r| ensures r[i].position != r[j].position {
        GridPositionInjective(i, j);
      }
    }
    r
  }

  /**
   The list `JSON.parse` gives for a person: empty when the connections text
   is missing or empty (falsy, so not parsed) or when parsing fails, since
   the failure is caught and only logged.
   */
  function Targets(p: Person, parse: string -> Parsed): seq<int>
  {
    if Truthy(p.connections) then
      match parse(p.connections.value)
      case Fail => []
      case Ok(ts) => ts
    else []
  }

  /** The edges the inner `forEach` pushes: one per target, in list order. */
  function EdgesFrom(source: int, stroke: string, targets: seq<int>): (r: seq<Edge>)
    ensures |r| == |targets|
    ensures forall k :: 0 <= k < |r| ==> r[k] == Edge(source, targets[k], stroke)
  {
    if |targets| == 0 then []
    else [Edge(source, targets[0], stroke)] + EdgesFrom(source, stroke, targets[1..])
  }

  /**
   The edges one person contributes: none without connections text or when
   it does not parse; otherwise exactly one edge from the person to each
   parsed target, in order, repeats included, coloured by the person's
   status, whether or not the target is anybody's id.
   */
  function PersonEdges(p: Person, parse: string -> Parsed): (r: seq<Edge>)
    ensures !Truthy(p.connections) ==> r == []
    ensures Truthy(p.connections) && parse(p.connections.value).Fail? ==> r == []
    ensures Truthy(p.connections) && parse(p.connections.value).Ok? ==>
              var ts := parse(p.connections.value).targets;
              |r| == |ts| && forall k :: 0 <= k < |r| ==> r[k] == Edge(p.id, ts[k], NodeColor(p.status))
  {
    EdgesFrom(p.id, NodeColor(p.status), Targets(p, parse))
  }

  /** Total number of parsed targets over all people. */
  function TargetCount(people: seq<Person>, parse: string -> Parsed): nat
  {
    if |people| == 0 then 0
    else |Targets(people[0], parse)| + TargetCount(people[1..], parse)
  }

  /**
   `initialEdges`: every person's edges, people taken in input order; there
   are exactly as many edges as successfully parsed targets.
   */
  function Edges(people: seq<Person>, parse: string -> Parsed): (r: seq<Edge>)
    ensures |r| == TargetCount(people, parse)
  {
    if |people| == 0 then []
    else PersonEdges(people[0], parse) + Edges(people[1..], parse)
  }

  /** One unfolding of `Edges`: the first person's edges, then the rest's. */
  lemma EdgesCons(people: seq<Person>, parse: string -> Parsed)
    requires |people| > 0
    ensures Edges(people, parse) == PersonEdges(people[0], parse) + Edges(people[1..], parse)
  {
  }

  /** Deriving the edges of two lists one after the other is deriving them on the joined list. */
  lemma {:induction false} EdgesOfConcat(a: seq<Person>, b: seq<Person>, parse: string -> Parsed)
    ensures Edges(a + b, parse) == Edges(a, parse) + Edges(b, parse)
  {
    if |a| == 0 {
      assert a + b == b;
    } else {
      var ab := a + b;
      assert ab[0] == a[0];
      assert ab[1..] == a[1..] + b;
      EdgesOfConcat(a[1..], b, parse);
      var mine, later, theirs := PersonEdges(a[0], parse), Edges(a[1..], parse), Edges(b, parse);
      EdgesCons(ab, parse);
      EdgesCons(a, parse);
      EdgeListsAssociate(mine, later, theirs);
    }
  }

  lemma EdgeListsAssociate(x: seq<Edge>, y: seq<Edge>, z: seq<Edge>)
    ensures x + (y + z) == (x + y) + z
  {
  }

  /** The edge person `people[i]` contributes for its `k`-th parsed target. */
  ghost predicate EdgeFor(people: seq<Person>, parse: string -> Parsed, e: Edge, i: int, k: int)
  {
    && 0 <= i < |people|
    && 0 <= k < |Targets(people[i], parse)|
    && e == Edge(people[i].id, Targets(people[i], parse)[k], NodeColor(people[i].status))
  }

  /**
   An edge is derived exactly when some person lists its target among their
   parsed connections and the edge starts at that person with their colour.
   */
  lemma {:induction false} EdgeMembership(people: seq<Person>, parse: string -> Parsed, e: Edge)
    ensures e in Edges(people, parse) <==> exists i, k :: EdgeFor(people, parse, e, i, k)
  {
    if |people| > 0 {
      var p := people[0];
      var mine := PersonEdges(p, parse);
      var rest := people[1..];
      EdgeMembership(rest, parse, e);
      if e in Edges(people, parse) {
        if e in mine {
          var k :| 0 <= k < |mine| && mine[k] == e;
          assert EdgeFor(people, parse, e, 0, k);
        } else {
          var i, k :| EdgeFor(rest, parse, e, i, k);
          assert EdgeFor(people, parse, e, i + 1, k);
        }
      }
      if i, k :| EdgeFor(people, parse, e, i, k) {
        if i == 0 {
          assert mine[k] == e;
        } else {
          assert EdgeFor(rest, parse, e, i - 1, k);
        }
      }
    }
  }

  /**
   Every edge starts at a drawn node; only targets may name an id that has
   no node (a dangling edge the renderer drops).
   */
  lemma EdgeSourcesAreNodes(people: seq<Person>, parse: string -> Parsed)
    ensures forall e :: e in Edges(people, parse) ==>
              exists i :: 0 <= i < |people| && Nodes(people)[i].id == e.source
  {
    forall e | e in Edges(people, parse)
      ensures exists i :: 0 <= i < |people| && Nodes(people)[i].id == e.source
    {
      EdgeMembership(people, parse, e);
      var i, k :| EdgeFor(people, parse, e, i, k);
      assert Nodes(people)[i].id == e.source;
    }
  }

  /**
   Nothing is de-duplicated: two equal entries of a parsed list give two
   equal edges, at the same two positions of the person's edges.
   */
  lemma RepeatedTargetRepeatsEdge(p: Person, parse: string -> Parsed, i: nat, j: nat)
    requires Truthy(p.connections)
    requires parse(p.connections.value).Ok?
    requires i < j < |parse(p.connections.value).targets|
    requires parse(p.connections.value).targets[i] == parse(p.connections.value).targets[j]
    ensures var r := PersonEdges(p, parse);
            && i < j < |r|
            && r[i] == r[j] == Edge(p.id, parse(p.connections.value).targets[i], NodeColor(p.status))
  {
  }

  /** Every derived edge starts at a listed person whose parsed connections hold its target. */
  lemma EdgeHasLister(people: seq<Person>, parse: string -> Parsed, e: Edge)
    requires e in Edges(people, parse)
    ensures exists i :: 0 <= i < |people| && people[i].id == e.source && e.target in Targets(people[i], parse)
  {
    EdgeMembership(people, parse, e);
    var i, k :| EdgeFor(people, parse, e, i, k);
    assert Targets(people[i], parse)[k] == e.target;
  }

  /**
   Edges are not made symmetric: an edge from `b` to `a` is derived only
   when a person with id `b` lists `a` themselves, whatever `a` lists.
   */
  lemma NoReverseEdgeAdded(people: seq<Person>, parse: string -> Parsed, a: int, b: int)
    requires forall i :: 0 <= i < |people| && people[i].id == b ==> a !in Targets(people[i], parse)
    ensures forall e :: e in Edges(people, parse) && e.source == b ==> e.target != a
  {
    forall e | e in Edges(people, parse) && e.source == b ensures e.target != a {
      EdgeHasLister(people, parse, e);
    }
  }
}
