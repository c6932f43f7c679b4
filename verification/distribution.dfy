/**
 * The static population table: seven species groups, five diameter classes, and
 * the number of trees of each (group, class) pair that every block receives.
 * Diameters are integers in hundredths of a centimetre.
 */
module Distribution {
  import opened Random

  /** The five diameter classes, in the order the generator visits them. */
  datatype DiameterClass = D5to15 | D15to30 | D30to45 | D45to60 | D60Plus

  /** Smallest diameter of a class, in hundredths of a cm. */
  function ClassLow(c: DiameterClass): int {
    match c
    case D5to15 => 500
    case D15to30 => 1501
    case D30to45 => 3001
    case D45to60 => 4501
    case D60Plus => 6001
  }

  /** Largest diameter of a class, in hundredths of a cm (100 cm caps the open class). */
  function ClassHigh(c: DiameterClass): int {
    match c
    case D5to15 => 1500
    case D15to30 => 3000
    case D30to45 => 4500
    case D45to60 => 6000
    case D60Plus => 10000
  }

  predicate InClass(d: int, c: DiameterClass) {
    ClassLow(c) <= d <= ClassHigh(c)
  }

  /** The class a diameter between 5 cm and 100 cm falls into. */
  function ClassOf(d: int): DiameterClass {
    if d <= 1500 then D5to15
    else if d <= 3000 then D15to30
    else if d <= 4500 then D30to45
    else if d <= 6000 then D45to60
    else D60Plus
  }

  /** The class ranges partition 5.00 .. 100.00 cm: every such diameter lies in exactly one class. */
  lemma ClassesPartition(d: int, c: DiameterClass)
    requires 500 <= d <= 10000
    ensures InClass(d, c) <==> c == ClassOf(d)
  {
  }

  /** `generateRandomDiameter`: one draw, uniform over the class's range. */
  function RandomDiameter(c: DiameterClass, g: Rng): (r: (int, Rng))
    ensures InClass(r.0, c)
    ensures ClassOf(r.0) == c
    ensures Advanced(g, r.1, 1)
  {
    Rand(g, ClassLow(c), ClassHigh(c))
  }

  /** One row of the distribution table; `declaredTotal` is the row's 'Total' column. */
  datatype GroupRow = GroupRow(
    name: string,
    n5to15: nat, n15to30: nat, n30to45: nat, n45to60: nat, n60Plus: nat,
    declaredTotal: nat)

  /** The number of trees a row asks for in class `c`. */
  function Count(row: GroupRow, c: DiameterClass): nat {
    match c
    case D5to15 => row.n5to15
    case D15to30 => row.n15to30
    case D30to45 => row.n30to45
    case D45to60 => row.n45to60
    case D60Plus => row.n60Plus
  }

  /** The number of trees a row asks for over all classes. */
  function RowSum(row: GroupRow): nat {
    row.n5to15 + row.n15to30 + row.n30to45 + row.n45to60 + row.n60Plus
  }

  /** `getTreeDistributionTable`: trees per block, by group and diameter class. */
  function DistributionTable(): (rows: seq<GroupRow>)
    ensures |rows| == 7
  {
    seq(7, k requires 0 <= k < 7 => TableRow(k))
  }

  /** Row `k` of the distribution table, in the source's order. */
  function TableRow(k: int): GroupRow
    requires 0 <= k < 7
  {
    if k == 0 then GroupRow("mersawa", 15, 12, 4, 2, 2, 44)
    else if k == 1 then GroupRow("keruing", 21, 18, 6, 4, 4, 53)
    else if k == 2 then GroupRow("Dip commercial", 21, 18, 6, 4, 4, 53)
    else if k == 3 then GroupRow("Dip Non Commercial", 30, 27, 9, 5, 3, 74)
    else if k == 4 then GroupRow("NonDip commercial", 30, 27, 9, 4, 4, 74)
    else if k == 5 then GroupRow("NonDip Non Commercial", 39, 36, 12, 7, 4, 98)
    else GroupRow("Others", 44, 42, 14, 9, 4, 113)
  }

  /** `getSpeciesGroupMap`: group `k + 1` is named `GroupNames()[k]`. */
  function GroupNames(): (names: seq<string>)
    ensures |names| == 7
  {
    seq(7, k requires 0 <= k < 7 => GroupName(k + 1))
  }

  /** The name the group map gives group `id`. */
  function GroupName(id: int): string
    requires 1 <= id <= 7
  {
    if id == 1 then "mersawa"
    else if id == 2 then "keruing"
    else if id == 3 then "Dip commercial"
    else if id == 4 then "Dip Non Commercial"
    else if id == 5 then "NonDip commercial"
    else if id == 6 then "NonDip Non Commercial"
    else "Others"
  }

  /**
   * `array_search` of a group name in the group map: the id of the first group with
   * that name, or 0 when there is none (the source's `false`, which PHP turns into
   * key 0 when it is used to index the names-by-group lookup).
   */
  function GroupIdOf(name: string): int {
    IdIn(GroupNames(), name)
  }

  /** The id of `name` in a group-name list: its 1-based position, or 0 when absent. */
  function IdIn(names: seq<string>, name: string): int {
    SearchFrom(names, name, 0)
  }

  /** The 1-based position of the first `name` in `names[from..]`, or 0. */
  function SearchFrom(names: seq<string>, name: string, from: nat): (id: int)
    requires from <= |names|
    ensures id == 0 || from < id <= |names|
    ensures id == 0 <==> name !in names[from..]
    ensures id > 0 ==> names[id - 1] == name
    ensures id > 0 ==> forall k :: from <= k < id - 1 ==> names[k] != name
    decreases |names| - from
  {
    if from == |names| then 0
    else if names[from] == name then from + 1
    else
      assert names[from..] == [names[from]] + names[from + 1..];
      SearchFrom(names, name, from + 1)
  }

  /** The seven group names are pairwise distinct. */
  lemma GroupNamesDistinct()
    ensures forall i, j :: 0 <= i < j < |GroupNames()| ==> GroupNames()[i] != GroupNames()[j]
  {
    var names := GroupNames();
    assert names[0][0] == 'm' && names[1][0] == 'k' && names[6][0] == 'O';
    assert names[2][0] == 'D' && names[3][0] == 'D' && names[4][0] == 'N' && names[5][0] == 'N';
    assert names[2][4] == 'c' && names[3][4] == 'N';
    assert names[4][7] == 'c' && names[5][7] == 'N';
  }

  /** Every row of the table is found in the group map at its own position. */
  lemma TableRowsHaveGroupIds()
    ensures |DistributionTable()| == |GroupNames()| == 7
    ensures forall k :: 0 <= k < 7 ==> GroupIdOf(DistributionTable()[k].name) == k + 1
  {
    var names := GroupNames();
    GroupNamesDistinct();
    forall k | 0 <= k < 7
      ensures GroupIdOf(DistributionTable()[k].name) == k + 1
    {
      assert DistributionTable()[k].name == names[k];
      assert names[k] in names[0..];
    }
  }

  /** A generation template: the group and class one tree will be drawn for. */
  datatype Template = Template(groupId: int, dClass: DiameterClass)

  /** `n` copies of `t`. */
  function Repeat(t: Template, n: nat): (r: seq<Template>)
    ensures |r| == n
    ensures forall k :: 0 <= k < n ==> r[k] == t
  {
    seq(n, _ => t)
  }

  /** `Repeat(u, n)` holds `n` copies of `u` and nothing else. */
  lemma {:induction false} RepeatMultiset(u: Template, n: nat, t: Template)
    ensures multiset(Repeat(u, n))[t] == if t == u then n else 0
  {
    if n > 0 {
      RepeatMultiset(u, n - 1, t);
      assert Repeat(u, n) == Repeat(u, n - 1) + [u];
    }
  }

  /** The templates one table row contributes, class by class. */
  function RowTemplates(id: int, row: GroupRow): seq<Template> {
    Repeat(Template(id, D5to15), row.n5to15) + Repeat(Template(id, D15to30), row.n15to30)
      + Repeat(Template(id, D30to45), row.n30to45) + Repeat(Template(id, D45to60), row.n45to60)
      + Repeat(Template(id, D60Plus), row.n60Plus)
  }

  /** The multiset of templates of one row: `Count(row, c)` copies of each class. */
  lemma RowTemplatesMultiset(id: int, row: GroupRow, t: Template)
    ensures |RowTemplates(id, row)| == RowSum(row)
    ensures multiset(RowTemplates(id, row))[t] == if t.groupId == id then Count(row, t.dClass) else 0
  {
    var a := Repeat(Template(id, D5to15), row.n5to15);
    var b := Repeat(Template(id, D15to30), row.n15to30);
    var c := Repeat(Template(id, D30to45), row.n30to45);
    var d := Repeat(Template(id, D45to60), row.n45to60);
    var e := Repeat(Template(id, D60Plus), row.n60Plus);
    var ma, mb, mc, md, me := multiset(a)[t], multiset(b)[t], multiset(c)[t], multiset(d)[t], multiset(e)[t];
    RepeatMultiset(Template(id, D5to15), row.n5to15, t);
    RepeatMultiset(Template(id, D15to30), row.n15to30, t);
    RepeatMultiset(Template(id, D30to45), row.n30to45, t);
    RepeatMultiset(Template(id, D45to60), row.n45to60, t);
    RepeatMultiset(Template(id, D60Plus), row.n60Plus, t);
    assert RowTemplates(id, row) == a + b + c + d + e;
    assert multiset(a + b + c + d + e) == multiset(a) + multiset(b) + multiset(c) + multiset(d) + multiset(e);
    assert multiset(RowTemplates(id, row))[t] == ma + mb + mc + md + me;
    if t.groupId == id {
      match t.dClass {
        case D5to15 => assert mb == mc == md == me == 0;
        case D15to30 => assert ma == mc == md == me == 0;
        case D30to45 => assert ma == mb == md == me == 0;
        case D45to60 => assert ma == mb == mc == me == 0;
        case D60Plus => assert ma == mb == mc == md == 0;
      }
    } else {
      assert ma == mb == mc == md == me == 0;
    }
  }

  /** The flattened template list of a whole table, row by row, each row under its id in `names`. */
  function Expand(rows: seq<GroupRow>, names: seq<string>): seq<Template> {
    if rows == [] then [] else RowTemplates(IdIn(names, rows[0].name), rows[0]) + Expand(rows[1..], names)
  }

  /** Total trees a table asks for per block; the 'Total' column plays no part. */
  function TableTotal(rows: seq<GroupRow>): nat {
    if rows == [] then 0 else RowSum(rows[0]) + TableTotal(rows[1..])
  }

  /** The number of templates with group `t.groupId` and class `t.dClass` a table asks for. */
  function TableCount(rows: seq<GroupRow>, names: seq<string>, t: Template): nat {
    if rows == [] then 0
    else
      var here := if t.groupId == IdIn(names, rows[0].name) then Count(rows[0], t.dClass) else 0;
      here + TableCount(rows[1..], names, t)
  }

  /** Expanding a table yields exactly `TableTotal` templates. */
  lemma {:induction false} ExpandLength(rows: seq<GroupRow>, names: seq<string>)
    ensures |Expand(rows, names)| == TableTotal(rows)
  {
    if rows != [] {
      ExpandLength(rows[1..], names);
      RowTemplatesMultiset(IdIn(names, rows[0].name), rows[0], Template(0, D5to15));
    }
  }

  /** Expanding a table yields `TableCount` templates of each kind. */
  lemma {:induction false} ExpandCounts(rows: seq<GroupRow>, names: seq<string>, t: Template)
    ensures multiset(Expand(rows, names))[t] == TableCount(rows, names, t)
  {
    if rows != [] {
      ExpandCounts(rows[1..], names, t);
      RowTemplatesMultiset(IdIn(names, rows[0].name), rows[0], t);
    }
  }

  /** The table asks for 500 trees per block. */
  lemma TableTotalIs500()
    ensures TableTotal(DistributionTable()) == 500
  {
    var t := DistributionTable();
    assert t[7..] == [];
    forall i | 0 <= i < 7 ensures TableTotal(t[i..]) == RowSum(t[i]) + TableTotal(t[i + 1..]) {
      assert t[i..][1..] == t[i + 1..];
    }
    assert t[0..] == t;
  }

  /** A group id carried by no row has no templates. */
  lemma {:induction false} TableCountAbsent(rows: seq<GroupRow>, names: seq<string>, t: Template)
    requires forall j :: 0 <= j < |rows| ==> IdIn(names, rows[j].name) != t.groupId
    ensures TableCount(rows, names, t) == 0
  {
    if rows != [] {
      TableCountAbsent(rows[1..], names, t);
    }
  }

  /** A group id carried by exactly one row gets that row's count. */
  lemma {:induction false} TableCountUnique(rows: seq<GroupRow>, names: seq<string>, k: int, t: Template)
    requires 0 <= k < |rows| && IdIn(names, rows[k].name) == t.groupId
    requires forall j :: 0 <= j < |rows| && j != k ==> IdIn(names, rows[j].name) != t.groupId
    ensures TableCount(rows, names, t) == Count(rows[k], t.dClass)
  {
    if k == 0 {
      TableCountAbsent(rows[1..], names, t);
    } else {
      TableCountUnique(rows[1..], names, k - 1, t);
    }
  }

  /** In the table, group `k + 1` asks for exactly row `k`'s count of each class. */
  lemma TableCountOfGroup(k: int, c: DiameterClass)
    requires 0 <= k < 7
    ensures TableCount(DistributionTable(), GroupNames(), Template(k + 1, c)) == Count(DistributionTable()[k], c)
  {
    TableRowsHaveGroupIds();
    TableCountUnique(DistributionTable(), GroupNames(), k, Template(k + 1, c));
  }

  /** The 'Total' column of Group 1 (44) disagrees with its classes (35); only the classes count. */
  lemma DeclaredTotalOfGroup1IsNotItsSum()
    ensures DistributionTable()[0].declaredTotal == 44
    ensures RowSum(DistributionTable()[0]) == 35
  {
  }
}
