/**
 The rows `AppDbContext.OnModelCreating` seeds with `HasData`, and the
 startup step of `Program.cs` that deletes and recreates the database, so
 that every process start begins from exactly these rows.
 */
module Seed {
  import opened Nullable
  import opened People
  import opened PersonStore

  /**
   The seeded person at position `index` (0-based) of the `HasData` call.
   `startup` is the clock reading the seed's `DateTime.UtcNow` calls observe.
   */
  function SeedRow(index: nat, startup: int): (p: Person)
    requires index < 8
    ensures p.id == index + 1
  {
    match index
    case 0 => Person(1, "Alice Johnson", Colleague, BestFriend, "Work", Some("Seattle"),
                     YearsBefore(startup, 3), Some("[2,3]"))
    case 1 => Person(2, "Bob Martinez", Groupmate, BestFriend, "University", Some("Seattle"),
                     YearsBefore(startup, 5), Some("[1,4,5]"))
    case 2 => Person(3, "Carol Davis", Colleague, Friend, "Work", Some("Seattle"),
                     YearsBefore(startup, 2), Some("[1]"))
    case 3 => Person(4, "David Kim", Classmate, Friend, "University", Some("Portland"),
                     YearsBefore(startup, 5), Some("[2,5]"))
    case 4 => Person(5, "Emma Wilson", Family, BestFriend, "Family", Some("Seattle"),
                     YearsBefore(startup, 10), Some("[2,4]"))
    case 5 => Person(6, "Frank Thomas", Colleague, Acquaintance, "Work", Some("Seattle"),
                     MonthsBefore(startup, 6), Some("[]"))
    case 6 => Person(7, "Grace Lee", Groupmate, Friend, "Hobbies", Some("Vancouver"),
                     YearsBefore(startup, 1), Some("[8]"))
    case _ => Person(8, "Henry Brown", Classmate, Friend, "Hobbies", Some("Vancouver"),
                     YearsBefore(startup, 1), Some("[7]"))
  }

  /** The eight seeded people in declaration order; their ids are 1 to 8, so pairwise distinct. */
  function SeedRows(startup: int): (r: seq<Person>)
    ensures |r| == 8
    ensures forall i :: 0 <= i < |r| ==> r[i].id == i + 1
    ensures forall i, j :: 0 <= i < j < |r| ==> r[i].id != r[j].id
  {
    seq(8, i requires 0 <= i < 8 => SeedRow(i, startup))
  }

  /** Rows numbered 1 to 8 in order, each filed under its own id. */
  function Table(rows: seq<Person>): (m: map<int, Person>)
    requires |rows| == 8
    requires forall i :: 0 <= i < |rows| ==> rows[i].id == i + 1
    ensures KeyedById(m)
    ensures m.Keys == {1, 2, 3, 4, 5, 6, 7, 8}
    ensures forall i :: 0 <= i < 8 ==> m[i + 1] == rows[i]
  {
    map[1 := rows[0], 2 := rows[1], 3 := rows[2], 4 := rows[3],
        5 := rows[4], 6 := rows[5], 7 := rows[6], 8 := rows[7]]
  }

  /**
   The table right after startup: whatever was there before is dropped, the
   seed rows are inserted under their own ids, and the autoincrement counter
   continues after the largest seeded id.
   */
  function Startup(startup: int): (s: Store)
    ensures Valid(s)
    ensures s.people.Keys == {1, 2, 3, 4, 5, 6, 7, 8}
    ensures forall i :: 0 <= i < 8 ==> s.people[i + 1] == SeedRow(i, startup)
    ensures s.nextId == 9
  {
    var rows := SeedRows(startup);
    Store(Table(rows), |rows| + 1)
  }
}
