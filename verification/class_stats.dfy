/**
 * The `/api/stats/classes` handler: grouped `(label, count)` rows become a label-to-count
 * map, and the reply lists every taxonomy species in taxonomy order with its count or 0.
 */
module ClassStats {
  import opened Taxonomy

  /** One row of `SELECT <label column>, COUNT(*) ... GROUP BY <label column>`. */
  datatype GroupRow = GroupRow(name: string, count: int)

  /** One `{"name": ..., "count": ...}` entry of the reply. */
  datatype ClassCount = ClassCount(name: string, count: int)

  /** `count_map[row[0]] = row[1]` for each row in order, starting from an empty map. */
  function CountMapOf(rows: seq<GroupRow>): map<string, int> {
    if rows == [] then map[]
    else
      var last := rows[|rows| - 1];
      CountMapOf(rows[..|rows| - 1])[last.name := last.count]
  }

  /** Every label that occurs is a key, no other is, and a label's value is the count of its last row. */
  lemma {:induction false} CountMapOfSpec(rows: seq<GroupRow>)
    ensures forall name :: name in CountMapOf(rows) <==> exists i :: 0 <= i < |rows| && rows[i].name == name
    ensures forall i :: 0 <= i < |rows| && (forall j :: i < j < |rows| ==> rows[j].name != rows[i].name) ==>
      CountMapOf(rows)[rows[i].name] == rows[i].count
  {
    if rows != [] {
      var init := rows[..|rows| - 1];
      var last := rows[|rows| - 1];
      CountMapOfSpec(init);
      forall name
        ensures name in CountMapOf(rows) <==> exists i :: 0 <= i < |rows| && rows[i].name == name
      {
        if name in CountMapOf(init) {
          var i :| 0 <= i < |init| && init[i].name == name;
          assert rows[i].name == name;
        }
        if exists i :: 0 <= i < |rows| && rows[i].name == name {
          var i :| 0 <= i < |rows| && rows[i].name == name;
          if i < |init| {
            assert init[i].name == name;
          }
        }
      }
      forall i | 0 <= i < |rows| && (forall j :: i < j < |rows| ==> rows[j].name != rows[i].name)
        ensures CountMapOf(rows)[rows[i].name] == rows[i].count
      {
        if i < |init| {
          assert forall j :: i < j < |init| ==> init[j].name != init[i].name;
          assert rows[i].name != last.name;
        }
      }
    }
  }

  /** `count_map.get(name, 0)` */
  function CountOrZero(m: map<string, int>, name: string): (c: int)
    ensures name in m ==> c == m[name]
    ensures name !in m ==> c == 0
  {
    if name in m then m[name] else 0
  }

  /**
   * The map the reply is built from: the `detect_type` grouping, or the `mushroom_type`
   * grouping when the former has no rows.
   */
  function ChosenCounts(detectRows: seq<GroupRow>, typeRows: seq<GroupRow>): map<string, int> {
    if detectRows == [] then CountMapOf(typeRows) else CountMapOf(detectRows)
  }

  /** The handler's loop filling `count_map` from the rows of one grouping query. */
  method BuildCountMap(rows: seq<GroupRow>) returns (m: map<string, int>)
    ensures m == CountMapOf(rows)
  {
    m := map[];
    for k := 0 to |rows|
      invariant m == CountMapOf(rows[..k])
    {
      assert rows[..k + 1][..k] == rows[..k];
      m := m[rows[k].name := rows[k].count];
    }
    assert rows[..|rows|] == rows;
  }

  /**
   * The handler: the `detect_type` counts, falling back to the `mushroom_type` counts only
   * when the first map is empty; then one entry per taxonomy species, in taxonomy order.
   */
  method ClassCounts(detectRows: seq<GroupRow>, typeRows: seq<GroupRow>) returns (data: seq<ClassCount>)
    ensures |data| == |MushroomClasses|
    ensures forall i :: 0 <= i < |data| ==>
      data[i].name == MushroomClasses[i] &&
      data[i].count == CountOrZero(ChosenCounts(detectRows, typeRows), MushroomClasses[i])
    ensures detectRows != [] ==> forall i :: 0 <= i < |data| ==>
      data[i].count == CountOrZero(CountMapOf(detectRows), MushroomClasses[i])
  {
    var countMap := BuildCountMap(detectRows);
    CountMapOfSpec(detectRows);
    if |countMap| == 0 {
      countMap := BuildCountMap(typeRows);
    }
    data := [];
    for k := 0 to |MushroomClasses|
      invariant |data| == k
      invariant forall i :: 0 <= i < k ==>
        data[i] == ClassCount(MushroomClasses[i], CountOrZero(countMap, MushroomClasses[i]))
    {
      var name := MushroomClasses[k];
      data := data + [ClassCount(name, CountOrZero(countMap, name))];
    }
  }

  /**
   * With the grouping's distinct labels, a taxonomy species is reported with its own
   * group's count, and a species absent from the grouping with 0; labels outside the
   * taxonomy (such as the not-recognised sentinel) never reach the reply.
   */
  lemma GroupedCounts(rows: seq<GroupRow>, k: int)
    requires forall i, j :: 0 <= i < j < |rows| ==> rows[i].name != rows[j].name
    requires 0 <= k < |MushroomClasses|
    ensures forall i :: 0 <= i < |rows| && rows[i].name == MushroomClasses[k] ==>
      CountOrZero(CountMapOf(rows), MushroomClasses[k]) == rows[i].count
    ensures (forall i :: 0 <= i < |rows| ==> rows[i].name != MushroomClasses[k]) ==>
      CountOrZero(CountMapOf(rows), MushroomClasses[k]) == 0
  {
    CountMapOfSpec(rows);
  }
}
