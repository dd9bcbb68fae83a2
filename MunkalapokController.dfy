/**
 * The read-only work-order endpoints: list all, get by id, search by location
 * and technician, and list by year of repair. Each is a `Where`/`Select`
 * pipeline over the work-order table followed by `ToList` or
 * `FirstOrDefault`; all of them project a row through the same `MunkalapDto`
 * mapping. The table is a value passed in, so no call can change it.
 */
module MunkalapokController {
  import opened Converters
  import opened Linq
  import opened Models

  /** The outcome of an endpoint: a payload, a 404 carrying the id, or a 400. */
  datatype Response<+T> = Ok(value: T) | NotFound(id: int) | BadRequest

  /** The interpolated string `$"{telepules}, {utca}"`. */
  function Helyszin(h: Hely): (s: string)
    ensures |s| == |h.telepules| + 2 + |h.utca|
    ensures s[..|h.telepules|] == h.telepules
    ensures s[|h.telepules|..|h.telepules| + 2] == ", "
    ensures s[|h.telepules| + 2..] == h.utca
  {
    h.telepules + ", " + h.utca
  }

  /** The `new MunkalapDto { … }` projection shared by all four endpoints. */
  function ToDto(m: Munkalap): (v: MunkalapDto)
    ensures v.id == m.id && v.szerelo == m.szerelo.nev
    ensures v.munkaora == m.munkaora && v.anyagar == m.anyagar
    ensures v.helyszin == Helyszin(m.hely)
    ensures v.beadas_datum == DateOnlyToDateTime(m.beadas_datum)
    ensures v.javitas_datum == DateOnlyToDateTime(m.javitas_datum)
    ensures DateOf(v.beadas_datum) == m.beadas_datum && IsMidnight(v.beadas_datum)
    ensures DateOf(v.javitas_datum) == m.javitas_datum && IsMidnight(v.javitas_datum)
  {
    DateOfDateOnlyToDateTime(m.beadas_datum);
    DateOfDateOnlyToDateTime(m.javitas_datum);
    MunkalapDto(
      m.id,
      DateOnlyToDateTime(m.beadas_datum),
      DateOnlyToDateTime(m.javitas_datum),
      Helyszin(m.hely),
      m.szerelo.nev,
      m.munkaora,
      m.anyagar)
  }

  /** The `Where` condition of get-by-id: the row has the requested id. */
  function HasId(id: int): Munkalap -> bool {
    (m: Munkalap) => m.id == id
  }

  /** The `Where` condition of the search: both foreign keys are the requested ones. */
  function MatchesSearch(k: MunkalapKeresesDto): Munkalap -> bool {
    (m: Munkalap) => m.hely_id == k.helyszin_id && m.szerelo_id == k.szerelo_id
  }

  /** The `Where` condition of by-year: the repair date lies in year `ev`, any month and day. */
  function RepairedIn(ev: int): Munkalap -> bool {
    (m: Munkalap) => m.javitas_datum.year == ev
  }

  /**
   * `views` is the projection of exactly the rows of `table` that satisfy
   * `p`, in storage order, each as often as it is stored.
   */
  ghost predicate ProjectsFilter(views: seq<MunkalapDto>, table: seq<Munkalap>, p: Munkalap -> bool) {
    exists rows :: IsFilterOf(rows, table, p) && views == Select(rows, ToDto)
  }

  /** The filtered projection, with what it means for the caller. */
  function FilteredViews(table: seq<Munkalap>, p: Munkalap -> bool): (views: seq<MunkalapDto>)
    ensures ProjectsFilter(views, table, p)
    ensures forall v :: v in views <==> exists m :: m in table && p(m) && ToDto(m) == v
    ensures IsSubsequence(views, GetMunkalapok(table).value)
    ensures |views| <= |table|
  {
    var rows := Where(table, p);
    SelectPreservesSubsequence(rows, table, ToDto);
    forall v ensures v in Select(rows, ToDto) <==> exists m :: m in table && p(m) && ToDto(m) == v {
      SelectWhereMembership(table, p, ToDto, v);
    }
    Select(rows, ToDto)
  }

  /** GET api/Munkalapok: every stored work order, projected, in storage order. */
  function GetMunkalapok(table: seq<Munkalap>): (r: Response<seq<MunkalapDto>>)
    ensures r.Ok?
    ensures |r.value| == |table|
    ensures forall i :: 0 <= i < |table| ==> r.value[i] == ToDto(table[i])
    ensures table == [] ==> r.value == []
  {
    Ok(Select(table, ToDto))
  }

  /**
   * GET api/Munkalapok/{id}: the projection of the first row with that id,
   * or NotFound carrying the id when there is none.
   */
  function GetMunkalap(table: seq<Munkalap>, id: int): (r: Response<MunkalapDto>)
    ensures r.Ok? || r == NotFound(id)
    ensures r.NotFound? <==> forall m :: m in table ==> m.id != id
    ensures r.Ok? ==> exists i :: IsFirstMatch(table, HasId(id), i) && r.value == ToDto(table[i])
  {
    WhereHeadIsFirstMatch(table, HasId(id));
    match FirstOrDefault(Select(Where(table, HasId(id)), ToDto))
    case None => NotFound(id)
    case Some(v) =>
      assert Where(table, HasId(id))[0] in Where(table, HasId(id));
      Ok(v)
  }

  /**
   * POST api/Munkalapok/Kereses: a missing request body is a BadRequest;
   * otherwise the rows with both the requested location id and technician id.
   */
  function KeresMunkalapok(table: seq<Munkalap>, kereses: Option<MunkalapKeresesDto>): (r: Response<seq<MunkalapDto>>)
    ensures r.BadRequest? <==> kereses.None?
    ensures !r.NotFound?
    ensures kereses.Some? ==> ProjectsFilter(r.value, table, MatchesSearch(kereses.value))
    ensures kereses.Some? ==> forall v :: v in r.value <==>
      exists m :: m in table && m.hely_id == kereses.value.helyszin_id
        && m.szerelo_id == kereses.value.szerelo_id && ToDto(m) == v
    ensures kereses.Some? ==> IsSubsequence(r.value, GetMunkalapok(table).value)
  {
    match kereses
    case None => BadRequest
    case Some(k) => Ok(FilteredViews(table, MatchesSearch(k)))
  }

  /** GET api/Munkalapok/ev/{ev}: the rows whose repair date lies in year `ev`. */
  function GetMunkalapokByEv(table: seq<Munkalap>, ev: int): (r: Response<seq<MunkalapDto>>)
    ensures r.Ok?
    ensures ProjectsFilter(r.value, table, RepairedIn(ev))
    ensures forall v :: v in r.value <==> exists m :: m in table && m.javitas_datum.year == ev && ToDto(m) == v
    ensures IsSubsequence(r.value, GetMunkalapok(table).value)
  {
    Ok(FilteredViews(table, RepairedIn(ev)))
  }

  /* Properties of the endpoints. */

  /** The filter-and-project contract pins the result down: nothing else meets it. */
  lemma ProjectsFilterUnique(a: seq<MunkalapDto>, b: seq<MunkalapDto>, table: seq<Munkalap>, p: Munkalap -> bool)
    requires ProjectsFilter(a, table, p) && ProjectsFilter(b, table, p)
    ensures a == b
  {
    var ra :| IsFilterOf(ra, table, p) && a == Select(ra, ToDto);
    var rb :| IsFilterOf(rb, table, p) && b == Select(rb, ToDto);
    FilterUnique(ra, rb, table, p);
  }

  /** With `id` the primary key, a stored id yields exactly its own row's view. */
  lemma GetMunkalapOfStoredId(table: seq<Munkalap>, i: int)
    requires UniqueIds(table) && 0 <= i < |table|
    ensures GetMunkalap(table, table[i].id) == Ok(ToDto(table[i]))
  {
    var id := table[i].id;
    assert table[i] in table;
    var r := GetMunkalap(table, id);
    var j :| IsFirstMatch(table, HasId(id), j) && r.value == ToDto(table[j]);
  }

  /** A found view is one of the views that listing everything returns. */
  lemma GetMunkalapIsListed(table: seq<Munkalap>, id: int)
    ensures GetMunkalap(table, id).Ok? ==> GetMunkalap(table, id).value in GetMunkalapok(table).value
  {
    var r := GetMunkalap(table, id);
    if r.Ok? {
      var i :| IsFirstMatch(table, HasId(id), i) && r.value == ToDto(table[i]);
      assert GetMunkalapok(table).value[i] == r.value;
    }
  }

  /** A missing search body is answered without looking at the table. */
  lemma KeresMunkalapokNullIgnoresStorage(t1: seq<Munkalap>, t2: seq<Munkalap>)
    ensures KeresMunkalapok(t1, None) == KeresMunkalapok(t2, None) == BadRequest
  {
  }

  /** A search nothing matches is an empty success, not an error. */
  lemma KeresMunkalapokNoMatch(table: seq<Munkalap>, k: MunkalapKeresesDto)
    requires forall m :: m in table ==> m.hely_id != k.helyszin_id || m.szerelo_id != k.szerelo_id
    ensures KeresMunkalapok(table, Some(k)) == Ok([])
  {
  }

  /**
   * When every row's joins are resolved, each search result shows the town and
   * street of the requested location and the name of the requested technician.
   */
  lemma KeresMunkalapokShowsRequestedJoins(table: seq<Munkalap>, k: MunkalapKeresesDto)
    requires JoinsResolved(table)
    ensures forall v :: v in KeresMunkalapok(table, Some(k)).value ==>
      exists m :: (m in table && m.hely.id == k.helyszin_id && m.szerelo.id == k.szerelo_id
                   && v.helyszin == Helyszin(m.hely) && v.szerelo == m.szerelo.nev)
  {
    forall v | v in KeresMunkalapok(table, Some(k)).value
      ensures exists m :: (m in table && m.hely.id == k.helyszin_id && m.szerelo.id == k.szerelo_id
                           && v.helyszin == Helyszin(m.hely) && v.szerelo == m.szerelo.nev)
    {
      var m :| m in table && m.hely_id == k.helyszin_id && m.szerelo_id == k.szerelo_id && ToDto(m) == v;
      assert m.hely.id == k.helyszin_id && m.szerelo.id == k.szerelo_id;
    }
  }

  /** Every work order repaired in a year is listed for that year, whatever its month and day. */
  lemma GetMunkalapokByEvListsEveryDay(table: seq<Munkalap>, m: Munkalap)
    requires m in table
    ensures ToDto(m) in GetMunkalapokByEv(table, m.javitas_datum.year).value
  {
  }

  /** A year no DateOnly can have gives an empty list. */
  lemma GetMunkalapokByEvOutOfRange(table: seq<Munkalap>, ev: int)
    requires ev < 1 || ev > 9999
    ensures GetMunkalapokByEv(table, ev) == Ok([])
  {
  }

  /** The stored row the example lemmas are stated about. */
  function ExampleRow(): Munkalap {
    Munkalap(1, 1, 1, Date(2023, 1, 10), Date(2023, 1, 15), 3.5, 12000.0,
             Hely(1, "Budapest", "Fő utca"), Szerelo(1, "Kovács János"))
  }

  /** The view the endpoints are expected to show for ExampleRow. */
  function ExampleView(): MunkalapDto {
    MunkalapDto(1, DateTime(2023, 1, 10, 0, 0, 0, 0), DateTime(2023, 1, 15, 0, 0, 0, 0),
                "Budapest, Fő utca", "Kovács János", 3.5, 12000.0)
  }

  lemma ExampleProjection()
    ensures ToDto(ExampleRow()) == ExampleView()
  {
  }

  lemma ExampleListAll()
    ensures GetMunkalapok([ExampleRow()]) == Ok([ExampleView()])
  {
    ExampleProjection();
    var all := GetMunkalapok([ExampleRow()]).value;
    assert all == [all[0]];
  }

  lemma ExampleGetById()
    ensures GetMunkalap([ExampleRow()], 1) == Ok(ExampleView())
    ensures GetMunkalap([ExampleRow()], 999) == NotFound(999)
  {
    ExampleProjection();
    GetMunkalapOfStoredId([ExampleRow()], 0);
  }

  lemma ExampleByYear()
    ensures GetMunkalapokByEv([ExampleRow()], 2023) == Ok([ExampleView()])
    ensures GetMunkalapokByEv([ExampleRow()], 2022) == Ok([])
  {
    ExampleMatchesAlone(RepairedIn(2023));
    ProjectsFilterUnique(GetMunkalapokByEv([ExampleRow()], 2023).value, [ExampleView()], [ExampleRow()], RepairedIn(2023));
  }

  lemma ExampleSearch()
    ensures KeresMunkalapok([ExampleRow()], Some(MunkalapKeresesDto(1, 1))) == Ok([ExampleView()])
    ensures KeresMunkalapok([ExampleRow()], Some(MunkalapKeresesDto(1, 2))) == Ok([])
  {
    var k := MunkalapKeresesDto(1, 1);
    ExampleMatchesAlone(MatchesSearch(k));
    ProjectsFilterUnique(KeresMunkalapok([ExampleRow()], Some(k)).value, [ExampleView()], [ExampleRow()], MatchesSearch(k));
  }

  /** A condition ExampleRow meets selects, on its one-row table, exactly its view. */
  lemma ExampleMatchesAlone(p: Munkalap -> bool)
    requires p(ExampleRow())
    ensures ProjectsFilter([ExampleView()], [ExampleRow()], p)
  {
    ExampleProjection();
    var rows := [ExampleRow()];
    assert IsSubsequence(rows[1..], rows[1..]);
    assert IsFilterOf(rows, rows, p);
    assert Select(rows, ToDto) == [ExampleView()];
  }
}
