/**
  The kt-market admin server actions on the `devices` table: the paged,
  filtered product list with its normalised rows and page count, and product
  creation and update. Rows are maps from column name to JSON value; the
  database's answers and the current timestamp are parameters.
*/
module ProductActions {
  import opened Wrappers
  import opened JsNumber
  import Text
  import opened AdminGate

  datatype Json =
    | JNull
    | JBool(b: bool)
    | JNumber(n: Num)
    | JString(s: string)
    | JArray(items: seq<Json>)

  type Row = map<string, Json>

  /** JavaScript truthiness of a column value. */
  predicate JsonTruthy(v: Json) {
    match v
    case JNull => false
    case JBool(b) => b
    case JNumber(n) => Truthy(n)
    case JString(s) => s != ""
    case JArray(_) => true
  }

  /** The optional columns a listed row is given when it lacks them. */
  const RowDefaults: Row := map[
    "colors_kr" := JArray([]),
    "capacities" := JArray([]),
    "images" := JArray([]),
    "release_date" := JNull
  ]

  /** `{ colors_kr: [], capacities: [], images: [], release_date: null, ...d }` */
  function Normalize(row: Row): (r: Row)
    ensures r.Keys == row.Keys + RowDefaults.Keys
    ensures forall k :: k in row ==> r[k] == row[k]
    ensures forall k :: k in RowDefaults && k !in row ==> r[k] == RowDefaults[k]
  {
    RowDefaults + row
  }

  /** Normalising a normalised row changes nothing. */
  lemma NormalizeIdempotent(row: Row)
    ensures Normalize(Normalize(row)) == Normalize(row)
  {
  }

  /** `getProducts`' arguments; an absent page or limit takes its default. */
  datatype ProductQuery = ProductQuery(page: Option<real>, limit: Option<real>, search: Option<string>, category: Option<string>)

  /**
    `CategoryIs` is an equality filter; `Or` is a PostgREST `or` expression,
    a comma-separated list of conditions sent as written.
  */
  datatype ProductFilter = CategoryIs(category: string) | Or(expression: string)

  /**
    The search condition: the text is pasted unescaped into both `ilike`
    patterns, so a ',' in it starts a new condition and '%' and '_' are
    wildcards.
  */
  function SearchExpression(search: string): string {
    ("model.ilike.%" + search + "%") + "," + ("pet_name.ilike.%" + search + "%")
  }

  /** The request sent to the database: rows `from..to`, newest release first. */
  datatype ProductRequest = ProductRequest(from: real, to: real, filters: seq<ProductFilter>)

  /** What `getProducts` returns: the rows (absent when the database sent none), the count and the page count. */
  datatype ProductPage = ProductPage(data: Option<seq<Row>>, count: nat, totalPages: Num)

  const ListError := "상품 목록을 불러오지 못했습니다."

  function Request(q: ProductQuery): (r: ProductRequest)
    ensures var page := q.page.GetOr(1.0); var limit := q.limit.GetOr(10.0);
      && r.from == (page - 1.0) * limit
      && r.to - r.from + 1.0 == limit
    ensures CategoryIs(q.category.GetOr("")) in r.filters <==>
      HasText(q.category) && q.category.value != "all"
    ensures Or(SearchExpression(q.search.GetOr(""))) in r.filters <==> HasText(q.search)
    ensures |r.filters| <= 2
    ensures forall f :: f in r.filters ==>
      || (HasText(q.category) && q.category.value != "all" && f == CategoryIs(q.category.value))
      || (HasText(q.search) && f == Or(SearchExpression(q.search.value)))
  {
    var page := q.page.GetOr(1.0);
    var limit := q.limit.GetOr(10.0);
    var from := (page - 1.0) * limit;
    var category := if HasText(q.category) && q.category.value != "all"
      then [CategoryIs(q.category.value)] else [];
    var search := if HasText(q.search) then [Or(SearchExpression(q.search.value))] else [];
    ProductRequest(from, from + limit - 1.0, category + search)
  }

  /** A search without commas gives the two intended conditions, model and pet name. */
  lemma SearchConditions(search: string)
    requires ',' !in search
    ensures Text.Split(SearchExpression(search), ',') == ["model.ilike.%" + search + "%", "pet_name.ilike.%" + search + "%"]
  {
    Text.SplitTwo("model.ilike.%" + search + "%", "pet_name.ilike.%" + search + "%", ',');
  }

  /** A comma in the search text splits the expression into more conditions than the two intended. */
  lemma CommaInSearchAddsConditions()
    ensures |Text.Split(SearchExpression("a,b"), ',')| == 4
  {
    assert SearchExpression("a,b") == "model.ilike.%a" + [','] + ("b%" + [','] + ("pet_name.ilike.%a" + [','] + "b%"));
    Text.SplitFour("model.ilike.%a", "b%", "pet_name.ilike.%a", "b%", ',');
  }

  /**
    `count ? Math.ceil(count / limit) : 0`. A zero limit divides to
    `Infinity`; a negative one gives a negative page count.
  */
  function TotalPages(count: nat, limit: real): (n: Num)
    ensures count == 0 ==> n == Fin(0.0)
    ensures count > 0 && limit == 0.0 ==> n == Inf(true)
    ensures count > 0 && limit != 0.0 ==> n.Fin? && n.v.Floor as real == n.v
  {
    if count == 0 then Fin(0.0)
    else if limit == 0.0 then Inf(true)
    else Fin(Ceil(count as real / limit) as real)
  }

  /** With a positive limit, the page count is the fewest pages of that size holding every row. */
  lemma TotalPagesLeastCover(count: nat, limit: real)
    requires count > 0 && limit > 0.0
    ensures var n := TotalPages(count, limit).v;
      && n * limit >= count as real
      && (n - 1.0) * limit < count as real
      && n >= 1.0
  {
    var x := count as real / limit;
    var k := Ceil(x);
    assert x * limit == count as real;
    assert k as real >= x;
    MulMonotone(x, k as real, limit);
    MulStrict(k as real - 1.0, x, limit);
    assert TotalPages(count, limit) == Fin(k as real);
    assert (k as real - 1.0) * limit < count as real;
  }

  lemma MulMonotone(a: real, b: real, c: real)
    requires a <= b && c > 0.0
    ensures a * c <= b * c
  {
  }

  lemma MulStrict(a: real, b: real, c: real)
    requires a < b && c > 0.0
    ensures a * c < b * c
  {
  }

  /**
    How an admin action ends: redirected by `requireAdmin` before anything
    else runs, or completed with its value or the message it throws.
  */
  datatype Response<+T> = Redirected(to: string) | Completed(result: Result<T, string>)
  {
    predicate Succeeded() {
      Completed? && result.Success?
    }

    function Value(): T
      requires Succeeded()
    {
      result.value
    }
  }

  /**
    `getProducts`: only an administrator gets past the guard; then a database
    error becomes the thrown message, and otherwise the rows are normalised
    and the count of all matching rows gives the page count.
  */
  function GetProducts(session: Session, q: ProductQuery, outcome: Result<(Option<seq<Row>>, Option<nat>), string>): (r: Response<ProductPage>)
    ensures r.Redirected? <==> !IsAdministrator(session)
    ensures r.Redirected? ==> r.to == RequireAdmin(session).to
    ensures r.Completed? ==> (outcome.Failure? <==> r.result.Failure?)
    ensures r.Completed? && r.result.Failure? ==> r.result.error == ListError
    ensures r.Succeeded() ==>
      && r.Value().count == outcome.value.1.GetOr(0)
      && r.Value().totalPages == TotalPages(r.Value().count, q.limit.GetOr(10.0))
      && (r.Value().data.Some? <==> outcome.value.0.Some?)
      && (r.Value().data.Some? ==>
            (&& |r.Value().data.value| == |outcome.value.0.value|
             && forall i :: 0 <= i < |r.Value().data.value| ==> r.Value().data.value[i] == Normalize(outcome.value.0.value[i])))
  {
    match RequireAdmin(session)
    case Redirect(to) => Redirected(to)
    case Admitted(_) =>
      match outcome
      case Failure(_) => Completed(Failure(ListError))
      case Success((data, count)) =>
        var rows := if data.None? then None else Some(seq(|data.value|, i requires 0 <= i < |data.value| => Normalize(data.value[i])));
        var c := count.GetOr(0);
        Completed(Success(ProductPage(rows, c, TotalPages(c, q.limit.GetOr(10.0)))))
  }

  const MissingModel := "Model ID is missing"

  /**
    `updateProduct`: after the guard, without a truthy `model` the call
    throws; otherwise the rows whose model equals it take the given columns.
    A database error is reported with its message; `dbError` stands for it.
  */
  function UpdateProduct(session: Session, table: seq<Row>, data: Row, dbError: Option<string>): (r: Response<seq<Row>>)
    ensures r.Redirected? <==> !IsAdministrator(session)
    ensures r.Redirected? ==> r.to == RequireAdmin(session).to
    ensures IsAdministrator(session) && ("model" !in data || !JsonTruthy(data["model"])) ==> r == Completed(Failure(MissingModel))
    ensures IsAdministrator(session) && "model" in data && JsonTruthy(data["model"]) && dbError.Some? ==>
      r == Completed(Failure("기기 수정 실패: " + dbError.value))
    ensures r.Succeeded() ==>
      && |r.Value()| == |table|
      && forall i :: 0 <= i < |table| ==>
        r.Value()[i] == (if "model" in table[i] && table[i]["model"] == data["model"] then table[i] + data else table[i])
  {
    match RequireAdmin(session)
    case Redirect(to) => Redirected(to)
    case Admitted(_) =>
      if "model" !in data || !JsonTruthy(data["model"]) then Completed(Failure(MissingModel))
      else if dbError.Some? then Completed(Failure("기기 수정 실패: " + dbError.value))
      else Completed(Success(seq(|table|, i requires 0 <= i < |table| =>
        if "model" in table[i] && table[i]["model"] == data["model"] then table[i] + data else table[i])))
  }

  /** An update touches only the rows of the given model, and those keep the model. */
  lemma UpdateTouchesOnlyModel(session: Session, table: seq<Row>, data: Row, i: nat)
    requires UpdateProduct(session, table, data, None).Succeeded() && i < |table|
    ensures var t := UpdateProduct(session, table, data, None).Value();
      && ("model" !in table[i] || table[i]["model"] != data["model"] ==> t[i] == table[i])
      && ("model" in table[i] && table[i]["model"] == data["model"] ==>
            t[i]["model"] == table[i]["model"] && forall k :: k in data ==> t[i][k] == data[k])
  {
  }

  /**
    `createProduct`: after the guard, the row is inserted with `created_at`
    set to the given timestamp, overriding any such column of the input, and
    with no other column added.
  */
  function CreateProduct(session: Session, table: seq<Row>, data: Row, createdAt: string, dbError: Option<string>): (r: Response<seq<Row>>)
    ensures r.Redirected? <==> !IsAdministrator(session)
    ensures r.Redirected? ==> r.to == RequireAdmin(session).to
    ensures r.Completed? ==> (dbError.Some? <==> r.result.Failure?)
    ensures r.Completed? && r.result.Failure? ==> r.result.error == "기기 등록 실패: " + dbError.value
    ensures r.Succeeded() ==> |r.Value()| == |table| + 1 && r.Value()[..|table|] == table
    ensures r.Succeeded() ==> var row := r.Value()[|table|];
      && row.Keys == data.Keys + {"created_at"}
      && row["created_at"] == JString(createdAt)
      && forall k :: k in data && k != "created_at" ==> row[k] == data[k]
  {
    match RequireAdmin(session)
    case Redirect(to) => Redirected(to)
    case Admitted(_) =>
      if dbError.Some? then Completed(Failure("기기 등록 실패: " + dbError.value))
      else Completed(Success(table + [data["created_at" := JString(createdAt)]]))
  }

  /**
    The inserted row is the given data with only `created_at` replaced: once
    that column is set aside on both, the two agree.
  */
  lemma CreatedRowIsData(session: Session, table: seq<Row>, data: Row, createdAt: string)
    requires CreateProduct(session, table, data, createdAt, None).Succeeded()
    ensures CreateProduct(session, table, data, createdAt, None).Value()[|table|] - {"created_at"} == data - {"created_at"}
  {
    var row := CreateProduct(session, table, data, createdAt, None).Value()[|table|];
    assert (row - {"created_at"}).Keys == (data - {"created_at"}).Keys;
  }

  /** A caller who is not an administrator changes nothing, whatever the data. */
  lemma NonAdministratorChangesNothing(session: Session, table: seq<Row>, data: Row, createdAt: string, dbError: Option<string>)
    requires !IsAdministrator(session)
    ensures !CreateProduct(session, table, data, createdAt, dbError).Succeeded()
    ensures !UpdateProduct(session, table, data, dbError).Succeeded()
    ensures session.user.None? ==> UpdateProduct(session, table, data, dbError) == Redirected(LoginRedirect)
  {
  }
}
