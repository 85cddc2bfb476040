/** What serialization without relations means: the joined objects of a main object, listed by class. */
module FlatRecords {
  import opened Options
  import opened Serializers

  datatype Place = Place(row: nat, column: nat)

  predicate Earlier(p: Place, q: Place) {
    p.row < q.row || (p.row == q.row && p.column < q.column)
  }

  predicate InOrder(places: seq<Place>) {
    forall j, k :: 0 <= j < k < |places| ==> Earlier(places[j], places[k])
  }

  /** Here a row of the main object carries this joined object. */
  predicate FlatAt(rows: seq<Row>, main: int, cls: string, p: Place, o: Obj) {
    && p.row < |rows| && MainRow(rows[p.row], main)
    && 1 <= p.column < |rows[p.row]| && rows[p.row][p.column] == Some(o) && o.cls == cls
  }

  ghost predicate FirstAt(rows: seq<Row>, main: int, o: Obj, p: Place) {
    && FlatAt(rows, main, o.cls, p, o)
    && forall q, x :: FlatAt(rows, main, o.cls, q, x) && Earlier(q, p) ==> x.id != o.id
  }

  /** Each object is the first one of its class and id. */
  ghost predicate FirstsAt(rows: seq<Row>, main: int, cls: string, objs: seq<Obj>, places: seq<Place>) {
    && |places| == |objs| && InOrder(places)
    && (forall k :: 0 <= k < |objs| ==> objs[k].cls == cls && objs[k].id.Some?)
    && (forall k :: 0 <= k < |objs| ==> FirstAt(rows, main, objs[k], places[k]))
  }

  predicate HasId(objs: seq<Obj>, id: Option<int>) {
    exists k :: 0 <= k < |objs| && objs[k].id == id
  }

  /** Exactly the joined objects of one class with an id, each id once, as its first object, in order. */
  ghost predicate FlatExact(rows: seq<Row>, main: int, cls: string, objs: seq<Obj>) {
    && (exists places :: FirstsAt(rows, main, cls, objs, places))
    && (forall p, o :: FlatAt(rows, main, cls, p, o) && o.id.Some? ==> HasId(objs, o.id))
  }

  /** A single object stands for itself, any other number is a list. */
  predicate FlatDisplays(field: Field, objs: seq<Obj>) {
    if |objs| == 1 then field.One? && field.rec == Rec(objs[0], map[])
    else field.List? && |field.recs| == |objs| && forall k :: 0 <= k < |objs| ==> field.recs[k] == Rec(objs[k], map[])
  }

  // ---------------------------------------------------------------- where the joined objects come from

  /** These objects of the first rows stand at these places, and there are no others. */
  ghost predicate Found(rows: seq<Row>, main: int, cls: string, objs: seq<Obj>, places: seq<Place>) {
    && InOrder(places) && AllAt(rows, main, cls, objs, places)
    && forall p, o :: FlatAt(rows, main, cls, p, o) ==> p in places
  }

  predicate AllAt(rows: seq<Row>, main: int, cls: string, objs: seq<Obj>, places: seq<Place>) {
    |places| == |objs| && forall k :: 0 <= k < |objs| ==> FlatAt(rows, main, cls, places[k], objs[k])
  }

  lemma AllAtJoined(rows: seq<Row>, main: int, cls: string, objs: seq<Obj>, places: seq<Place>,
                    more: seq<Obj>, added: seq<Place>)
    requires AllAt(rows, main, cls, objs, places) && AllAt(rows, main, cls, more, added)
    ensures AllAt(rows, main, cls, objs + more, places + added)
  {
  }

  predicate ColumnAt(items: seq<Option<Obj>>, cls: string, j: nat, o: Obj) {
    j < |items| && items[j] == Some(o) && o.cls == cls
  }

  ghost predicate InColumns(items: seq<Option<Obj>>, cls: string, objs: seq<Obj>, columns: seq<nat>) {
    && |columns| == |objs|
    && (forall j, k :: 0 <= j < k < |columns| ==> columns[j] < columns[k])
    && (forall k :: 0 <= k < |objs| ==> ColumnAt(items, cls, columns[k], objs[k]))
    && (forall j, o :: ColumnAt(items, cls, j, o) ==> j in columns)
  }

  lemma ColumnsSnoc(items: seq<Option<Obj>>, cls: string, n: nat, objs: seq<Obj>, columns: seq<nat>)
    requires |items| == n + 1 && InColumns(items[..n], cls, objs, columns)
    ensures items[n].Some? && items[n].value.cls == cls ==>
      InColumns(items, cls, objs + [items[n].value], columns + [n])
    ensures !(items[n].Some? && items[n].value.cls == cls) ==> InColumns(items, cls, objs, columns)
  {
    forall j: nat, o ensures ColumnAt(items, cls, j, o) && j < n <==> ColumnAt(items[..n], cls, j, o) {
    }
    forall k | 0 <= k < |objs| ensures columns[k] < n && ColumnAt(items, cls, columns[k], objs[k]) {
      assert ColumnAt(items[..n], cls, columns[k], objs[k]);
    }
  }

  lemma {:induction false} ColumnsFound(items: seq<Option<Obj>>, cls: string) returns (columns: seq<nat>)
    ensures InColumns(items, cls, OfClass(items, cls), columns)
  {
    if items == [] {
      columns := [];
    } else {
      var n := |items| - 1;
      columns := ColumnsFound(items[..n], cls);
      ColumnsSnoc(items, cls, n, OfClass(items[..n], cls), columns);
      if items[n].Some? && items[n].value.cls == cls {
        columns := columns + [n];
      }
    }
  }

  lemma FlatAtStays(rows: seq<Row>, row: Row, main: int, cls: string, p: Place, o: Obj)
    ensures FlatAt(rows, main, cls, p, o) <==> FlatAt(rows + [row], main, cls, p, o) && p.row < |rows|
  {
    assert p.row < |rows| ==> (rows + [row])[p.row] == rows[p.row];
  }

  lemma FoundStays(rows: seq<Row>, row: Row, main: int, cls: string, objs: seq<Obj>, places: seq<Place>)
    requires Found(rows, main, cls, objs, places)
    ensures AllAt(rows + [row], main, cls, objs, places) && forall k :: 0 <= k < |objs| ==> places[k].row < |rows|
    ensures forall p, o :: FlatAt(rows + [row], main, cls, p, o) && p.row < |rows| ==> p in places
  {
    forall k | 0 <= k < |objs|
      ensures FlatAt(rows + [row], main, cls, places[k], objs[k]) && places[k].row < |rows|
    {
      FlatAtStays(rows, row, main, cls, places[k], objs[k]);
    }
    forall p, o | FlatAt(rows + [row], main, cls, p, o) && p.row < |rows| ensures p in places {
      FlatAtStays(rows, row, main, cls, p, o);
    }
  }

  function PlacesOf(n: nat, columns: seq<nat>): seq<Place> {
    seq(|columns|, k requires 0 <= k < |columns| => Place(n, columns[k] + 1))
  }

  /** The joined objects of one more row, at their columns. */
  lemma RowPlaces(rows: seq<Row>, row: Row, main: int, cls: string, objs: seq<Obj>, columns: seq<nat>)
    requires MainRow(row, main) && InColumns(row[1..], cls, objs, columns)
    ensures InOrder(PlacesOf(|rows|, columns)) && AllAt(rows + [row], main, cls, objs, PlacesOf(|rows|, columns))
  {
    var all, added := rows + [row], PlacesOf(|rows|, columns);
    assert all[|rows|] == row;
    forall k | 0 <= k < |objs| ensures FlatAt(all, main, cls, added[k], objs[k]) {
      assert ColumnAt(row[1..], cls, columns[k], objs[k]);
      assert row[1..][columns[k]] == row[columns[k] + 1];
    }
  }

  lemma RowCovered(rows: seq<Row>, row: Row, main: int, cls: string, objs: seq<Obj>, columns: seq<nat>, p: Place,
                   o: Obj)
    requires MainRow(row, main) && InColumns(row[1..], cls, objs, columns)
    requires FlatAt(rows + [row], main, cls, p, o) && p.row == |rows|
    ensures p in PlacesOf(|rows|, columns)
  {
    assert (rows + [row])[|rows|] == row;
    assert row[1..][p.column - 1] == Some(o);
    assert ColumnAt(row[1..], cls, p.column - 1, o);
    var k :| 0 <= k < |columns| && columns[k] == p.column - 1;
    assert PlacesOf(|rows|, columns)[k] == p;
  }

  lemma JoinedInOrder(before: seq<Place>, after: seq<Place>, n: nat)
    requires InOrder(before) && InOrder(after)
    requires forall k :: 0 <= k < |before| ==> before[k].row < n
    requires forall k :: 0 <= k < |after| ==> after[k].row == n
    ensures InOrder(before + after)
  {
  }

  lemma FoundSnoc(rows: seq<Row>, row: Row, main: int, cls: string, objs: seq<Obj>, places: seq<Place>,
                  more: seq<Obj>, columns: seq<nat>)
    requires Found(rows, main, cls, objs, places)
    requires MainRow(row, main) && InColumns(row[1..], cls, more, columns)
    ensures Found(rows + [row], main, cls, objs + more, places + PlacesOf(|rows|, columns))
  {
    FoundStays(rows, row, main, cls, objs, places);
    RowPlaces(rows, row, main, cls, more, columns);
    var added := PlacesOf(|rows|, columns);
    JoinedInOrder(places, added, |rows|);
    AllAtJoined(rows + [row], main, cls, objs, places, more, added);
    forall p, o | FlatAt(rows + [row], main, cls, p, o) ensures p in places + added {
      if p.row == |rows| {
        RowCovered(rows, row, main, cls, more, columns, p, o);
      }
    }
  }

  lemma {:induction false} KidsFound(rows: seq<Row>, main: int, cls: string) returns (places: seq<Place>)
    ensures Found(rows, main, cls, FlatKids(rows, main, cls), places)
  {
    if rows == [] {
      places := [];
    } else {
      var front, row := rows[..|rows| - 1], rows[|rows| - 1];
      places := KidsFound(front, main, cls);
      assert rows == front + [row];
      FoundStays(front, row, main, cls, FlatKids(front, main, cls), places);
      if MainRow(row, main) {
        var columns := ColumnsFound(row[1..], cls);
        FoundSnoc(front, row, main, cls, FlatKids(front, main, cls), places, OfClass(row[1..], cls), columns);
        places := places + PlacesOf(|front|, columns);
      }
    }
  }

  // ---------------------------------------------------------------- the first object of each id

  /** Element `pick` is the first one with its id. */
  predicate FirstOf(objs: seq<Obj>, pick: nat) {
    pick < |objs| && objs[pick].id.Some? && forall j :: 0 <= j < pick ==> objs[j].id != objs[pick].id
  }

  /** What is kept of a list of objects: the first of each id, in order. */
  lemma {:induction false} UniqueExactly(objs: seq<Obj>) returns (picks: seq<nat>)
    ensures |picks| == |Unique(objs)|
    ensures forall j, k :: 0 <= j < k < |picks| ==> picks[j] < picks[k]
    ensures forall k :: 0 <= k < |picks| ==> FirstOf(objs, picks[k]) && Unique(objs)[k] == objs[picks[k]]
    ensures forall j :: 0 <= j < |objs| && objs[j].id.Some? ==> HasId(Unique(objs), objs[j].id)
  {
    if objs == [] {
      picks := [];
    } else {
      var n := |objs| - 1;
      var front, o := objs[..n], objs[n];
      picks := UniqueExactly(front);
      forall k | 0 <= k < |picks| ensures FirstOf(objs, picks[k]) && objs[picks[k]] == front[picks[k]] {
        assert forall j :: 0 <= j <= picks[k] ==> objs[j] == front[j];
      }
      if o.id.Some? && o.id.value !in IdsOf(front) {
        picks := picks + [n];
        assert Unique(objs) == Unique(front) + [o];
        assert Unique(objs)[|Unique(front)|] == o;
        forall j | 0 <= j < n ensures objs[j].id != o.id {
          assert front[j].id.Some? ==> front[j].id.value in IdsOf(front);
        }
      }
      forall j | 0 <= j < |objs| && objs[j].id.Some? ensures HasId(Unique(objs), objs[j].id) {
        KeptId(objs, j);
      }
    }
  }

  lemma {:induction false} KeptId(objs: seq<Obj>, j: nat)
    requires j < |objs| && objs[j].id.Some?
    ensures HasId(Unique(objs), objs[j].id)
  {
    var n := |objs| - 1;
    var front, o := objs[..n], objs[n];
    if j < n || o.id.value in IdsOf(front) {
      var i :| 0 <= i < n && front[i].id == objs[j].id;
      KeptId(front, i);
      var k :| 0 <= k < |Unique(front)| && Unique(front)[k].id == objs[j].id;
      assert Unique(objs)[k] == Unique(front)[k];
    } else {
      assert Unique(objs)[|Unique(front)|] == o;
    }
  }

  // ---------------------------------------------------------------- flat records are exact

  lemma PickedFirst(rows: seq<Row>, main: int, cls: string, objs: seq<Obj>, places: seq<Place>, pick: nat)
    requires Found(rows, main, cls, objs, places) && FirstOf(objs, pick)
    ensures FirstAt(rows, main, objs[pick], places[pick])
  {
    forall q, x | FlatAt(rows, main, cls, q, x) && Earlier(q, places[pick]) ensures x.id != objs[pick].id {
      var j :| 0 <= j < |places| && places[j] == q;
      assert FlatAt(rows, main, cls, places[j], objs[j]);
      assert j < pick;
    }
  }

  lemma UniqueIsExact(rows: seq<Row>, main: int, cls: string)
    ensures FlatExact(rows, main, cls, Unique(FlatKids(rows, main, cls)))
  {
    var kids := FlatKids(rows, main, cls);
    var places := KidsFound(rows, main, cls);
    var picks := UniqueExactly(kids);
    var unique := Unique(kids);
    var firsts := seq(|picks|, k requires 0 <= k < |picks| => places[picks[k]]);
    forall k | 0 <= k < |unique|
      ensures unique[k].cls == cls && unique[k].id.Some? && FirstAt(rows, main, unique[k], firsts[k])
    {
      PickedFirst(rows, main, cls, kids, places, picks[k]);
    }
    assert FirstsAt(rows, main, cls, unique, firsts);
    forall p, o | FlatAt(rows, main, cls, p, o) && o.id.Some? ensures HasId(unique, o.id) {
      var j :| 0 <= j < |places| && places[j] == p;
      assert kids[j] == o;
    }
  }

  /**
   * Without relations the record of a main object has a field for every other class of which one of its rows
   * carries an object, and that field shows exactly those objects.
   */
  lemma FlatIsExact(rows: seq<Row>, main: int, mainName: string, cls: string)
    ensures var fields := FlatFields(rows, main, mainName, ClassesOf(rows));
      && (cls in fields <==> cls != mainName && exists p, o :: FlatAt(rows, main, cls, p, o))
      && (cls in fields ==> exists objs :: FlatExact(rows, main, cls, objs) && FlatDisplays(fields[cls], objs))
  {
    var kids := FlatKids(rows, main, cls);
    var places := KidsFound(rows, main, cls);
    if kids != [] {
      FlatKidsSeen(rows, main, cls);
      assert FlatAt(rows, main, cls, places[0], kids[0]);
    }
    UniqueIsExact(rows, main, cls);
    var fields := FlatFields(rows, main, mainName, ClassesOf(rows));
    if cls in fields {
      assert FlatDisplays(fields[cls], Unique(kids));
    }
  }
}
