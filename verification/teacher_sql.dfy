/** The statements the teacher repository sends and the parameter lists that
    go with them: the `findAll` filter conditions and paging, and the
    `INSERT` and `UPDATE` statements built from a payload's keys. The
    alignment lemmas show that every placeholder names the parameter meant
    for it. Statement texts are compared up to white space. */
module TeacherSql {
  import opened Results
  import opened Text
  import opened Sql

  /** `COLUMNS`: what every teacher query returns, each column qualified with `t`. */
  const Projection := "t.id AS uuid, t.name, t.middle_name, t.last_name, t.phone, t.user_fk, t.grade_id, t.location_id, t.created_at"

  /** The qualifier `Projection` uses. */
  const ProjectionQualifier := "t"

  const JoinClause := "FROM teacher t JOIN users u ON u.id = t.user_fk"

  // ----- findAll: the WHERE clause -----

  datatype Filter = Filter(name: Option<string>, lastName: Option<string>)

  /** `if (filter?.x)`: a filter value counts only when given and not empty. */
  function Given(v: Option<string>): (r: Option<string>)
    ensures r.Some? <==> v.Some? && v.value != ""
    ensures r.Some? ==> r == v
  {
    if v.Some? && v.value != "" then v else None
  }

  function NameFilter(filter: Option<Filter>): Option<string> {
    if filter.None? then None else Given(filter.value.name)
  }

  function LastNameFilter(filter: Option<Filter>): Option<string> {
    if filter.None? then None else Given(filter.value.lastName)
  }

  /** The `%v%` pattern: `v` anywhere in the column. */
  function Surround(v: string): string {
    "%" + v + "%"
  }

  datatype Condition =
    | UserActive
    | ColumnILike(column: string, placeholder: string)

  function RenderCondition(c: Condition): string {
    match c
    case UserActive => "u.is_active = TRUE"
    case ColumnILike(column, p) => "t." + column + " ILIKE " + p
  }

  /** The `conditions` and `values` arrays of `findAll`. */
  datatype Where = Where(conditions: seq<Condition>, values: seq<SqlValue>)

  /** The shape the arrays keep: the activity condition first, then one
      ILIKE condition per value, the k-th of them naming `$k`, and the k-th
      value a text pattern. */
  predicate Aligned(w: Where) {
    && |w.conditions| == |w.values| + 1
    && w.conditions[0] == UserActive
    && forall k :: 1 <= k < |w.conditions| ==>
         w.conditions[k].ColumnILike? && w.conditions[k].placeholder == Placeholder(k) && w.values[k - 1].SqlText?
  }

  /** One `if (filter?.x) { values.push(...); conditions.push(...) }` step. */
  function AddFilter(w: Where, column: string, v: Option<string>): (r: Where)
    requires Aligned(w)
    ensures Aligned(r)
    ensures |r.values| == |w.values| + (if v.Some? then 1 else 0)
    ensures r.conditions[..|w.conditions|] == w.conditions && r.values[..|w.values|] == w.values
    ensures v.None? ==> r == w
    ensures v.Some? ==> (
      && r.values[|w.values|] == SqlText(Surround(v.value))
      && r.conditions[|w.values| + 1] == ColumnILike(column, Placeholder(|w.values| + 1)))
  {
    if v.None? then w
    else
      var values := w.values + [SqlText(Surround(v.value))];
      Where(w.conditions + [ColumnILike(column, Placeholder(|values|))], values)
  }

  const Unfiltered := Where([UserActive], [])

  function BuildWhere(filter: Option<Filter>): (w: Where)
    ensures Aligned(w)
    ensures |w.values| == (if NameFilter(filter).Some? then 1 else 0) + (if LastNameFilter(filter).Some? then 1 else 0)
  {
    AddFilter(AddFilter(Unfiltered, "name", NameFilter(filter)), "last_name", LastNameFilter(filter))
  }

  /** The WHERE clause text: the conditions joined by AND after `WHERE`, or
      nothing when there are none. */
  function WhereText(w: Where): string {
    if |w.conditions| == 0 then ""
    else "WHERE " + Join(seq(|w.conditions|, i requires 0 <= i < |w.conditions| => RenderCondition(w.conditions[i])), " AND ")
  }

  /** Whether a condition holds of a joined row, given the user's
      `is_active`, the teacher's columns and the statement's parameters. */
  predicate ConditionHolds(c: Condition, userActive: bool, columns: map<string, SqlValue>, params: seq<SqlValue>) {
    match c
    case UserActive => userActive
    case ColumnILike(column, p) =>
      match Resolve(p, params)
      case Some(SqlText(pattern)) => column in columns && columns[column].SqlText? && ILike(columns[column].s, pattern)
      case _ => false
  }

  predicate WhereHolds(w: Where, userActive: bool, columns: map<string, SqlValue>, params: seq<SqlValue>) {
    forall k :: 0 <= k < |w.conditions| ==> ConditionHolds(w.conditions[k], userActive, columns, params)
  }

  /** A text column matching `%v%`, when a value is given. */
  predicate TextMatches(columns: map<string, SqlValue>, column: string, v: Option<string>) {
    v.None? || (column in columns && columns[column].SqlText? && ILike(columns[column].s, Surround(v.value)))
  }

  /** What `findAll` asks of a row: an active user, and each given filter
      value found, as a LIKE pattern ignoring case, in its column. */
  predicate FilterMatches(filter: Option<Filter>, userActive: bool, columns: map<string, SqlValue>) {
    && userActive
    && TextMatches(columns, "name", NameFilter(filter))
    && TextMatches(columns, "last_name", LastNameFilter(filter))
  }

  /** One filter step adds exactly its column's condition, as long as the
      parameters begin with the values built so far. */
  lemma AddFilterMeaning(w: Where, column: string, v: Option<string>, userActive: bool, columns: map<string, SqlValue>, params: seq<SqlValue>)
    requires Aligned(w)
    requires |params| >= |AddFilter(w, column, v).values|
    requires params[..|AddFilter(w, column, v).values|] == AddFilter(w, column, v).values
    ensures WhereHolds(AddFilter(w, column, v), userActive, columns, params)
        <==> WhereHolds(w, userActive, columns, params) && TextMatches(columns, column, v)
  {
    var r := AddFilter(w, column, v);
    if v.Some? {
      var k := |w.values| + 1;
      ResolvePlaceholder(k, params);
      assert params[k - 1] == r.values[k - 1];
      assert ConditionHolds(r.conditions[k], userActive, columns, params) <==> TextMatches(columns, column, v);
      assert forall i :: 0 <= i < |w.conditions| ==> r.conditions[i] == w.conditions[i] by {
        assert r.conditions[..|w.conditions|] == w.conditions;
      }
    }
  }

  /** The built WHERE clause, evaluated against the values with anything
      appended after them, means exactly the filter. */
  lemma WhereMeansFilter(filter: Option<Filter>, userActive: bool, columns: map<string, SqlValue>, extra: seq<SqlValue>)
    ensures WhereHolds(BuildWhere(filter), userActive, columns, BuildWhere(filter).values + extra)
        <==> FilterMatches(filter, userActive, columns)
  {
    var w1 := AddFilter(Unfiltered, "name", NameFilter(filter));
    var w := AddFilter(w1, "last_name", LastNameFilter(filter));
    var params := w.values + extra;
    assert params[..|w.values|] == w.values;
    assert params[..|w1.values|] == w1.values by {
      assert w.values[..|w1.values|] == w1.values;
      assert params[..|w1.values|] == w.values[..|w1.values|];
    }
    AddFilterMeaning(w1, "last_name", LastNameFilter(filter), userActive, columns, params);
    AddFilterMeaning(Unfiltered, "name", NameFilter(filter), userActive, columns, params);
    assert WhereHolds(Unfiltered, userActive, columns, params) <==> userActive by {
      assert Unfiltered.conditions[0] == UserActive;
    }
  }

  /** A filter value free of LIKE wildcards and escapes matches exactly the
      rows whose column contains it, ignoring case. */
  lemma PlainFilterMeansSubstring(columns: map<string, SqlValue>, column: string, v: string)
    requires PlainText(v)
    requires column in columns && columns[column].SqlText?
    ensures TextMatches(columns, column, Some(v)) <==> ContainsIgnoringCase(columns[column].s, v)
  {
    FilterPatternMeaning(columns[column].s, v);
  }

  // ----- findAll: counting and paging -----

  const DefaultPage := 1
  const DefaultPageSize := 100

  datatype Paging = Paging(limit: int, offset: int)

  /** The page size (100 unless given) as the limit, and the offset of the
      page (the first unless given): the size times the pages before it. */
  function PagingOf(page: Option<int>, pageSize: Option<int>): (r: Paging)
    ensures r.limit == (if pageSize.Some? then pageSize.value else DefaultPageSize)
    ensures page.None? || page == Some(DefaultPage) ==> r.offset == 0
  {
    var size := pageSize.GetOr(DefaultPageSize);
    Paging(size, (page.GetOr(DefaultPage) - 1) * size)
  }

  /** The next page starts where the page before it ends. */
  lemma NextPageFollows(page: int, pageSize: Option<int>)
    ensures PagingOf(Some(page + 1), pageSize).limit == PagingOf(Some(page), pageSize).limit
    ensures PagingOf(Some(page + 1), pageSize).offset
         == PagingOf(Some(page), pageSize).offset + PagingOf(Some(page), pageSize).limit
  {
    var size := pageSize.GetOr(DefaultPageSize);
    assert (page + 1 - 1) * size == (page - 1) * size + size;
  }

  function CountSql(w: Where): string {
    "SELECT COUNT(*) " + JoinClause + " " + WhereText(w)
  }

  function LimitPlaceholder(w: Where): string {
    Placeholder(|w.values| + 1)
  }

  function OffsetPlaceholder(w: Where): string {
    Placeholder(|w.values| + 2)
  }

  function DataSql(w: Where): string {
    "SELECT " + Projection + " " + JoinClause + " " + WhereText(w)
    + " ORDER BY t.created_at DESC LIMIT " + LimitPlaceholder(w) + " OFFSET " + OffsetPlaceholder(w)
  }

  /** The data query's parameters: the filter values, then the page size and
      the offset, so that LIMIT and OFFSET take the two placeholders after them. */
  function DataParams(w: Where, p: Paging): seq<SqlValue> {
    w.values + [SqlInt(p.limit), SqlInt(p.offset)]
  }

  /** LIMIT names the page size and OFFSET the offset, whatever filters came first. */
  lemma PagingAlignment(w: Where, p: Paging)
    ensures Resolve(LimitPlaceholder(w), DataParams(w, p)) == Some(SqlInt(p.limit))
    ensures Resolve(OffsetPlaceholder(w), DataParams(w, p)) == Some(SqlInt(p.offset))
  {
    ResolvePlaceholder(|w.values| + 1, DataParams(w, p));
    ResolvePlaceholder(|w.values| + 2, DataParams(w, p));
  }

  // ----- findById and softDelete -----

  const FindByIdSql := "SELECT " + Projection + " " + JoinClause + " WHERE t.id = $1 AND u.is_active = TRUE LIMIT 1"

  const SoftDeleteSql := "UPDATE users SET is_active = FALSE WHERE id = (SELECT user_fk FROM teacher WHERE id = $1)"

  // ----- INSERT and UPDATE -----

  /** The table an `INSERT` or `UPDATE` names, and the alias it declares. */
  datatype Target = Target(table: string, alias: Option<string>)

  /** `INSERT INTO teacher` and `UPDATE teacher`, as the repository writes them. */
  const WrittenTarget := Target("teacher", None)

  /** `INSERT INTO teacher AS t` and `UPDATE teacher AS t`: the alias the
      projection refers to. */
  const AliasedTarget := Target("teacher", Some("t"))

  function TargetText(target: Target): string {
    target.table + (if target.alias.Some? then " AS " + target.alias.value else "")
  }

  /** The one name that qualifies the target's columns: an alias hides the
      table name. */
  function VisibleName(target: Target): string {
    target.alias.GetOr(target.table)
  }

  /** The INSERT statement: the payload's columns and `created_at`, one
      numbered placeholder per column with `NOW()` for the time, and the
      shared column list to return. */
  function InsertSql(target: Target, keys: seq<string>): string {
    "INSERT INTO " + TargetText(target) + " (" + Join(keys, ", ") + ", created_at) VALUES ("
    + Join(PlaceholdersFrom(1, |keys|), ", ") + ", NOW()) RETURNING " + Projection
  }

  /** An INSERT as the server reads it: the listed columns take the listed
      placeholders, and `created_at` takes `NOW()`. */
  datatype InsertStatement = InsertStatement(target: Target, columns: seq<string>, placeholders: seq<string>)

  /** The reading of `InsertSql`: with no keys the column list begins with a
      comma, which does not parse. */
  function ParseInsert(target: Target, keys: seq<string>): (r: Option<InsertStatement>)
    ensures r.Some? <==> keys != []
    ensures r.Some? ==> r.value.columns == keys && |r.value.placeholders| == |keys| && r.value.target == target
  {
    if keys == [] then None else Some(InsertStatement(target, keys, PlaceholdersFrom(1, |keys|)))
  }

  /** `Object.values(data)` binds the k-th column: column k is stored the
      value of key k. */
  lemma InsertAlignment(target: Target, p: Payload)
    requires p != []
    ensures var s := ParseInsert(target, Keys(p)).value;
      BindColumns(s.columns, s.placeholders, Values(p)) == Some(PayloadMap(p))
  {
    var s := ParseInsert(target, Keys(p)).value;
    var none: seq<SqlValue> := [];
    assert s.placeholders == PlaceholdersFrom(|none| + 1, |p|);
    assert none + Values(p) + none == Values(p);
    BindAligned(p, none, none);
  }

  /** The UPDATE statement: each payload column set from its own numbered
      placeholder, the id from the placeholder after them, and the shared
      column list to return. */
  function UpdateSql(target: Target, keys: seq<string>): string {
    "UPDATE " + TargetText(target) + " SET "
    + Join(seq(|keys|, i requires 0 <= i < |keys| => keys[i] + "=" + Placeholder(i + 1)), ", ")
    + " WHERE id=" + Placeholder(|keys| + 1) + " RETURNING " + Projection
  }

  /** An UPDATE as the server reads it: each SET column takes its
      placeholder, and the row is chosen by `id = idPlaceholder`. */
  datatype UpdateStatement = UpdateStatement(
    target: Target, columns: seq<string>, placeholders: seq<string>, idPlaceholder: string)

  function ParseUpdate(target: Target, keys: seq<string>): (s: UpdateStatement)
    ensures s.columns == keys && |s.placeholders| == |keys| && s.target == target
  {
    UpdateStatement(target, keys, PlaceholdersFrom(1, |keys|), Placeholder(|keys| + 1))
  }

  /** The UPDATE's parameters: the payload's values in key order, then the id. */
  function UpdateParams(p: Payload, id: string): seq<SqlValue> {
    Values(p) + [SqlText(id)]
  }

  /** The SET placeholders name the payload's values in order, and the WHERE
      placeholder names the id after them. */
  lemma UpdateAlignment(target: Target, p: Payload, id: string)
    ensures var s := ParseUpdate(target, Keys(p));
      && BindColumns(s.columns, s.placeholders, UpdateParams(p, id)) == Some(PayloadMap(p))
      && Resolve(s.idPlaceholder, UpdateParams(p, id)) == Some(SqlText(id))
  {
    var s := ParseUpdate(target, Keys(p));
    var params := UpdateParams(p, id);
    var none: seq<SqlValue> := [];
    assert s.placeholders == PlaceholdersFrom(|none| + 1, |p|);
    assert s.idPlaceholder == Placeholder(|p| + 1);
    assert params == none + Values(p) + [SqlText(id)];
    BindAligned(p, none, [SqlText(id)]);
    ResolvePlaceholder(|p| + 1, params);
  }
}
