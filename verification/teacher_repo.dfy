/** The teacher repository over an abstract database: the `teacher` table
    joined to `users` through `user_fk`. Reads run on one pooled connection
    (`withClient`), writes inside a transaction; the server's evaluation of
    each statement is modelled from the statement and its parameters, so the
    contracts rest on the alignment of placeholders and values. */
module TeacherRepo {
  import opened Results
  import opened Text
  import opened Sql
  import opened Connections
  import opened TeacherSql
  import AuthRepo

  /** The columns of the `teacher` table. */
  const TableColumns: seq<string> :=
    ["id", "name", "middle_name", "last_name", "phone", "user_fk", "grade_id", "location_id", "created_at"]

  /** A row of `teacher`: its column values; a column it lacks is NULL. */
  datatype TeacherRow = TeacherRow(columns: map<string, SqlValue>)

  function Column(t: TeacherRow, key: string): SqlValue {
    if key in t.columns then t.columns[key] else SqlNull
  }

  predicate HasId(t: TeacherRow, id: string) {
    Column(t, "id") == SqlText(id)
  }

  function CreatedAt(t: TeacherRow): SqlValue {
    Column(t, "created_at")
  }

  // ----- the shared column list -----

  /** A teacher as the repository hands it back: the shared column list's
      values under their output names, so the row's `id` comes back as `uuid`
      and there is no `id`. */
  datatype Teacher = Teacher(
    uuid: SqlValue,
    name: SqlValue,
    middle_name: SqlValue,
    last_name: SqlValue,
    phone: SqlValue,
    user_fk: SqlValue,
    grade_id: SqlValue,
    location_id: SqlValue,
    created_at: SqlValue)

  /** A stored row as the shared column list returns it. */
  function Projected(t: TeacherRow): Teacher {
    Teacher(Column(t, "id"), Column(t, "name"), Column(t, "middle_name"), Column(t, "last_name"),
      Column(t, "phone"), Column(t, "user_fk"), Column(t, "grade_id"), Column(t, "location_id"),
      Column(t, "created_at"))
  }

  /** The projection loses nothing: two stored rows come back as the same
      teacher exactly when they agree on every column of the table. */
  lemma ProjectionKeepsColumns(a: TeacherRow, b: TeacherRow)
    ensures Projected(a) == Projected(b) <==> forall k :: k in TableColumns ==> Column(a, k) == Column(b, k)
  {
  }

  /** The teacher handed back for the row with `id` carries it as `uuid`. */
  predicate HasUuid(v: Teacher, id: string) {
    v.uuid == SqlText(id)
  }

  /** The stored rows, as the shared column list returns them. */
  function ProjectAll(ts: seq<TeacherRow>): (vs: seq<Teacher>)
    ensures |vs| == |ts| && forall i :: 0 <= i < |ts| ==> vs[i] == Projected(ts[i])
    decreases |ts|
  {
    if ts == [] then []
    else
      assert forall i :: 1 <= i < |ts| ==> ts[i] == ts[1..][i - 1];
      [Projected(ts[0])] + ProjectAll(ts[1..])
  }

  // ----- ORDER BY t.created_at DESC -----

  /** A `created_at` as the ordering sees it: NULL, or a time. The model
      does not check column types and reads any other value as the time 0. */
  function Stamp(v: SqlValue): Option<int> {
    match v
    case SqlNull => None
    case SqlInt(n) => Some(n)
    case _ => Some(0)
  }

  /** Whether a row whose `created_at` is `a` may come before one whose
      `created_at` is `b` in a descending order: NULL first, as PostgreSQL
      sorts NULLs first in a descending order unless told otherwise, then
      later times before earlier ones. */
  predicate SortsBefore(a: SqlValue, b: SqlValue) {
    match (Stamp(a), Stamp(b))
    case (None, _) => true
    case (Some(_), None) => false
    case (Some(x), Some(y)) => x >= y
  }

  /** The order is total and transitive, so sorting by it is well defined. */
  lemma SortsBeforeTotalOrder(a: SqlValue, b: SqlValue, c: SqlValue)
    ensures SortsBefore(a, b) || SortsBefore(b, a)
    ensures SortsBefore(a, b) && SortsBefore(b, c) ==> SortsBefore(a, c)
  {
  }

  datatype Db = Db(teachers: seq<TeacherRow>, users: seq<AuthRepo.UserRow>)

  /** What an operation returned and the database afterwards. */
  datatype Outcome<T> = Outcome(run: Run<T>, db: Db)

  // ----- JOIN users u ON u.id = t.user_fk -----

  datatype Joined = Joined(teacher: TeacherRow, user: AuthRepo.UserRow)

  predicate Joins(t: TeacherRow, u: AuthRepo.UserRow) {
    Column(t, "user_fk") == SqlText(u.id)
  }

  function JoinOne(t: TeacherRow, users: seq<AuthRepo.UserRow>): (r: seq<Joined>)
    ensures forall j :: j in r <==> j.teacher == t && j.user in users && Joins(t, j.user)
    decreases |users|
  {
    if users == [] then []
    else
      assert users == [users[0]] + users[1..];
      (if Joins(t, users[0]) then [Joined(t, users[0])] else []) + JoinOne(t, users[1..])
  }

  /** The joined rows, teacher by teacher in table order. */
  function JoinRows(teachers: seq<TeacherRow>, users: seq<AuthRepo.UserRow>): (r: seq<Joined>)
    ensures forall j :: j in r <==> j.teacher in teachers && j.user in users && Joins(j.teacher, j.user)
    decreases |teachers|
  {
    if teachers == [] then []
    else
      assert teachers == [teachers[0]] + teachers[1..];
      JoinOne(teachers[0], users) + JoinRows(teachers[1..], users)
  }

  function JoinedRows(db: Db): seq<Joined> {
    JoinRows(db.teachers, db.users)
  }

  /** A teacher some active user joins: the rows the repository's reads can see. */
  ghost predicate Visible(db: Db, t: TeacherRow) {
    exists u :: u in db.users && u.isActive && Joins(t, u)
  }

  /** The rows a WHERE clause keeps, in scan order. */
  function Select(rows: seq<Joined>, keep: Joined -> bool): (r: seq<Joined>)
    ensures forall j :: j in r <==> j in rows && keep(j)
    ensures |r| <= |rows|
    decreases |rows|
  {
    if rows == [] then []
    else
      assert rows == [rows[0]] + rows[1..];
      (if keep(rows[0]) then [rows[0]] else []) + Select(rows[1..], keep)
  }

  lemma {:induction false} SelectSame(rows: seq<Joined>, f: Joined -> bool, g: Joined -> bool)
    requires forall j :: j in rows ==> f(j) == g(j)
    ensures Select(rows, f) == Select(rows, g)
    decreases |rows|
  {
    if rows != [] {
      assert forall j :: j in rows[1..] ==> j in rows;
      SelectSame(rows[1..], f, g);
    }
  }

  // ----- sorting, LIMIT and OFFSET -----

  predicate NewestFirst(rows: seq<Joined>) {
    forall i, j :: 0 <= i < j < |rows| ==> SortsBefore(CreatedAt(rows[i].teacher), CreatedAt(rows[j].teacher))
  }

  /** `top` may come before every row. */
  predicate NoneNewer(rows: seq<Joined>, top: SqlValue) {
    forall k :: 0 <= k < |rows| ==> SortsBefore(top, CreatedAt(rows[k].teacher))
  }

  lemma NoneNewerByMultiset(a: seq<Joined>, b: seq<Joined>, top: SqlValue)
    requires multiset(a) == multiset(b) && NoneNewer(b, top)
    ensures NoneNewer(a, top)
  {
    forall k | 0 <= k < |a| ensures SortsBefore(top, CreatedAt(a[k].teacher)) {
      assert a[k] in multiset(b);
      var m :| 0 <= m < |b| && b[m] == a[k];
    }
  }

  /** A row that may come before the first of a sorted list goes in front of it. */
  lemma InFront(x: Joined, rows: seq<Joined>)
    requires NewestFirst(rows)
    requires rows == [] || SortsBefore(CreatedAt(x.teacher), CreatedAt(rows[0].teacher))
    ensures NewestFirst([x] + rows)
  {
    forall i, j | 0 <= i < j < |[x] + rows|
      ensures SortsBefore(CreatedAt(([x] + rows)[i].teacher), CreatedAt(([x] + rows)[j].teacher))
    {
      if i == 0 && j > 1 {
        SortsBeforeTotalOrder(CreatedAt(x.teacher), CreatedAt(rows[0].teacher), CreatedAt(rows[j - 1].teacher));
      }
    }
  }

  /** A row that may not come before the head of a sorted list goes behind the head. */
  lemma BehindHead(x: Joined, rows: seq<Joined>, rest: seq<Joined>)
    requires NewestFirst(rows) && rows != [] && !SortsBefore(CreatedAt(x.teacher), CreatedAt(rows[0].teacher))
    requires NewestFirst(rest) && multiset(rest) == multiset(rows[1..]) + multiset{x}
    ensures NewestFirst([rows[0]] + rest)
  {
    var top := CreatedAt(rows[0].teacher);
    SortsBeforeTotalOrder(CreatedAt(x.teacher), top, top);
    assert NoneNewer(rows[1..] + [x], top) by {
      forall k | 0 <= k < |rows[1..] + [x]| ensures SortsBefore(top, CreatedAt((rows[1..] + [x])[k].teacher)) {
        if k < |rows| - 1 {
          assert (rows[1..] + [x])[k] == rows[k + 1];
        }
      }
    }
    NoneNewerByMultiset(rest, rows[1..] + [x], top);
    forall i, j | 0 <= i < j < |[rows[0]] + rest|
      ensures SortsBefore(CreatedAt(([rows[0]] + rest)[i].teacher), CreatedAt(([rows[0]] + rest)[j].teacher))
    {
      if i == 0 {
        assert ([rows[0]] + rest)[j] == rest[j - 1];
      }
    }
  }

  lemma NewestFirstTail(rows: seq<Joined>)
    requires NewestFirst(rows) && rows != []
    ensures NewestFirst(rows[1..])
  {
    forall i, j | 0 <= i < j < |rows[1..]|
      ensures SortsBefore(CreatedAt(rows[1..][i].teacher), CreatedAt(rows[1..][j].teacher))
    {
      assert rows[1..][i] == rows[i + 1] && rows[1..][j] == rows[j + 1];
    }
  }

  function InsertByCreated(x: Joined, rows: seq<Joined>): (r: seq<Joined>)
    requires NewestFirst(rows)
    ensures NewestFirst(r)
    ensures multiset(r) == multiset(rows) + multiset{x}
    decreases |rows|
  {
    if rows == [] || SortsBefore(CreatedAt(x.teacher), CreatedAt(rows[0].teacher)) then
      InFront(x, rows);
      [x] + rows
    else
      NewestFirstTail(rows);
      var rest := InsertByCreated(x, rows[1..]);
      BehindHead(x, rows, rest);
      assert rows == [rows[0]] + rows[1..];
      [rows[0]] + rest
  }

  /** The server's sort: the same rows, NULL `created_at` first, then newest
      first. */
  function SortByCreated(rows: seq<Joined>): (r: seq<Joined>)
    ensures NewestFirst(r)
    ensures multiset(r) == multiset(rows)
    decreases |rows|
  {
    if rows == [] then []
    else
      assert rows == [rows[0]] + rows[1..];
      InsertByCreated(rows[0], SortByCreated(rows[1..]))
  }

  /** In a sorted list the rows with a NULL `created_at` come first: every
      row before one of them has a NULL `created_at` too. */
  lemma NullsComeFirst(rows: seq<Joined>)
    requires NewestFirst(rows)
    ensures forall i, j :: 0 <= j < i < |rows| && CreatedAt(rows[i].teacher) == SqlNull ==> CreatedAt(rows[j].teacher) == SqlNull
  {
  }

  /** `LIMIT limit OFFSET offset`: skip `offset` rows, keep at most `limit`. */
  function Window<T>(rows: seq<T>, limit: nat, offset: nat): (r: seq<T>)
    ensures |r| == (if offset >= |rows| then 0 else if limit <= |rows| - offset then limit else |rows| - offset)
    ensures forall i :: 0 <= i < |r| ==> r[i] == rows[offset + i]
  {
    var start := if offset <= |rows| then offset else |rows|;
    var end := if start + limit <= |rows| then start + limit else |rows|;
    rows[start..end]
  }

  /** Consecutive pages of one size follow each other with nothing skipped. */
  lemma PagesTile<T>(rows: seq<T>, size: nat, offset: nat)
    ensures Window(rows, size, offset) + Window(rows, size, offset + size) == Window(rows, 2 * size, offset)
  {
    var a, b, c := Window(rows, size, offset), Window(rows, size, offset + size), Window(rows, 2 * size, offset);
    assert |a + b| == |c|;
    forall i | 0 <= i < |c| ensures (a + b)[i] == c[i] {
      if i >= |a| {
        assert |a| == size;
        assert b[i - size] == rows[offset + i];
      }
    }
  }

  /** The rows' teachers, as the shared column list returns them. */
  function Teachers(rows: seq<Joined>): (ts: seq<Teacher>)
    ensures |ts| == |rows| && forall i :: 0 <= i < |rows| ==> ts[i] == Projected(rows[i].teacher)
  {
    seq(|rows|, i requires 0 <= i < |rows| => Projected(rows[i].teacher))
  }

  // ----- findAll -----

  datatype FindAllOptions = FindAllOptions(filter: Option<Filter>, page: Option<int>, pageSize: Option<int>)

  datatype Page = Page(data: seq<Teacher>, total: int)

  const NegativeOffset := "OFFSET must not be negative"
  const NegativeLimit := "LIMIT must not be negative"
  const UnboundParameter := "there is no parameter"

  /** The server evaluating a WHERE clause over the join. */
  function Matching(db: Db, w: Where, params: seq<SqlValue>): seq<Joined> {
    Select(JoinedRows(db), (j: Joined) => WhereHolds(w, j.user.isActive, j.teacher.columns, params))
  }

  /** The rows `findAll` is meant to report: an active user and the filter matched. */
  function FilterRows(db: Db, filter: Option<Filter>): seq<Joined> {
    Select(JoinedRows(db), (j: Joined) => FilterMatches(filter, j.user.isActive, j.teacher.columns))
  }

  /** The built clause selects exactly the rows the filter describes. */
  lemma MatchingIsFilterRows(db: Db, filter: Option<Filter>, extra: seq<SqlValue>)
    ensures Matching(db, BuildWhere(filter), BuildWhere(filter).values + extra) == FilterRows(db, filter)
  {
    var w := BuildWhere(filter);
    forall j | j in JoinedRows(db)
      ensures WhereHolds(w, j.user.isActive, j.teacher.columns, w.values + extra)
          == FilterMatches(filter, j.user.isActive, j.teacher.columns)
    {
      WhereMeansFilter(filter, j.user.isActive, j.teacher.columns, extra);
    }
    SelectSame(JoinedRows(db),
      (j: Joined) => WhereHolds(w, j.user.isActive, j.teacher.columns, w.values + extra),
      (j: Joined) => FilterMatches(filter, j.user.isActive, j.teacher.columns));
  }

  /** `SELECT COUNT(*)`: the count, as the text the driver hands back. */
  function CountQuery(db: Db, w: Where, params: seq<SqlValue>): (count: string)
    ensures AllDigits(count) && DigitsValue(count) == |Matching(db, w, params)|
  {
    DecimalRoundTrip(|Matching(db, w, params)|);
    Decimal(|Matching(db, w, params)|)
  }

  /** The data query: the server reads LIMIT and OFFSET from the parameters
      their placeholders name, checks OFFSET first, then orders and cuts. */
  function DataQuery(db: Db, w: Where, params: seq<SqlValue>): (r: Result<seq<Teacher>>)
    ensures r.Ok? ==>
      && Resolve(LimitPlaceholder(w), params).Some? && Resolve(LimitPlaceholder(w), params).value.SqlInt?
      && |r.value| <= Resolve(LimitPlaceholder(w), params).value.n
      && |r.value| <= |Matching(db, w, params)|
    ensures r.Err? ==> r.msg == NegativeOffset || r.msg == NegativeLimit || r.msg == UnboundParameter
  {
    match (Resolve(LimitPlaceholder(w), params), Resolve(OffsetPlaceholder(w), params))
    case (Some(SqlInt(limit)), Some(SqlInt(offset))) =>
      if offset < 0 then Err(NegativeOffset)
      else if limit < 0 then Err(NegativeLimit)
      else
        var rows := Matching(db, w, params);
        var sorted := SortByCreated(rows);
        assert |sorted| == |multiset(sorted)| == |multiset(rows)| == |rows|;
        Ok(Teachers(Window(sorted, limit, offset)))
    case _ => Err(UnboundParameter)
  }

  /** The count query reports the number of rows the filter describes, and
      `parseInt` reads it back. */
  lemma CountMeaning(db: Db, filter: Option<Filter>)
    ensures var w := BuildWhere(filter);
      DigitsValue(CountQuery(db, w, w.values)) == |FilterRows(db, filter)|
  {
    var w := BuildWhere(filter);
    DecimalRoundTrip(|Matching(db, w, w.values)|);
    MatchingIsFilterRows(db, filter, []);
    assert w.values + [] == w.values;
  }

  /** The data query reads the paging it was sent and pages through the rows
      the filter describes. */
  lemma DataMeaning(db: Db, filter: Option<Filter>, paging: Paging)
    ensures var w := BuildWhere(filter);
      DataQuery(db, w, DataParams(w, paging))
      == if paging.offset < 0 then Err(NegativeOffset)
         else if paging.limit < 0 then Err(NegativeLimit)
         else Ok(Teachers(Window(SortByCreated(FilterRows(db, filter)), paging.limit, paging.offset)))
  {
    var w := BuildWhere(filter);
    PagingAlignment(w, paging);
    MatchingIsFilterRows(db, filter, [SqlInt(paging.limit), SqlInt(paging.offset)]);
  }

  /** The statements `findAll` sends on its connection, and what it returns. */
  function FindAllQueries(db: Db, w: Where, paging: Paging): Run<Page> {
    var total := DigitsValue(CountQuery(db, w, w.values));
    var params := DataParams(w, paging);
    var data := DataQuery(db, w, params);
    Run(if data.Ok? then Ok(Page(data.value, total)) else Err(data.msg),
      [Exec(CountSql(w), w.values), Exec(DataSql(w), params)])
  }

  /** What the two queries amount to for a filter and a paging. */
  function FindAllMeaning(db: Db, filter: Option<Filter>, paging: Paging): Result<Page> {
    var rows := FilterRows(db, filter);
    if paging.offset < 0 then Err(NegativeOffset)
    else if paging.limit < 0 then Err(NegativeLimit)
    else Ok(Page(Teachers(Window(SortByCreated(rows), paging.limit, paging.offset)), |rows|))
  }

  lemma FindAllQueriesMeaning(db: Db, filter: Option<Filter>, paging: Paging)
    ensures FindAllQueries(db, BuildWhere(filter), paging).result == FindAllMeaning(db, filter, paging)
  {
    CountMeaning(db, filter);
    DataMeaning(db, filter, paging);
  }

  /** `findAll`: count the matching rows, then fetch one page of them, newest
      first, on one connection. The two queries answer what the reference
      reading of the options asks for. */
  function FindAll(db: Db, options: FindAllOptions): (r: Run<Page>)
    ensures IsSession(r.trace)
    ensures var w := BuildWhere(options.filter);
      var paging := PagingOf(options.page, options.pageSize);
      r.trace == [Connect, Exec(CountSql(w), w.values), Exec(DataSql(w), DataParams(w, paging)), Release]
    ensures r.result == FindAllMeaning(db, options.filter, PagingOf(options.page, options.pageSize))
  {
    var w := BuildWhere(options.filter);
    var paging := PagingOf(options.page, options.pageSize);
    var body := FindAllQueries(db, w, paging);
    FindAllQueriesMeaning(db, options.filter, paging);
    SessionOfTwo(body, Exec(CountSql(w), w.values), Exec(DataSql(w), DataParams(w, paging)));
    WithClient(body)
  }

  lemma SessionOfTwo<T>(body: Run<T>, first: Event, second: Event)
    requires body.trace == [first, second] && first.Exec? && second.Exec?
    ensures OnlyStatements(body.trace)
    ensures WithClient(body).trace == [Connect, first, second, Release]
  {
  }

  /** What `findAll` answers: a negative offset or limit is refused by the
      server; otherwise `total` counts every match and `data` is the window
      of the matches, newest first. */
  lemma FindAllOutcome(db: Db, options: FindAllOptions)
    ensures var r := FindAll(db, options);
      var paging := PagingOf(options.page, options.pageSize);
      && (r.result.Ok? <==> paging.offset >= 0 && paging.limit >= 0)
      && (paging.offset < 0 ==> r.result == Err(NegativeOffset))
      && (paging.offset >= 0 && paging.limit < 0 ==> r.result == Err(NegativeLimit))
    ensures var r := FindAll(db, options);
      r.result.Ok? ==>
      var paging := PagingOf(options.page, options.pageSize);
      var rows := FilterRows(db, options.filter);
      && r.result.value.total == |rows|
      && r.result.value.data == Teachers(Window(SortByCreated(rows), paging.limit, paging.offset))
  {
  }

  /** The paging the server accepts: neither the offset nor the page size is negative. */
  predicate PagingAccepted(options: FindAllOptions) {
    PagingOf(options.page, options.pageSize).offset >= 0 && PagingOf(options.page, options.pageSize).limit >= 0
  }

  /** `total` counts every match, whatever page is asked for. */
  lemma TotalIgnoresPaging(db: Db, filter: Option<Filter>, page1: Option<int>, size1: Option<int>, page2: Option<int>, size2: Option<int>)
    requires PagingAccepted(FindAllOptions(filter, page1, size1)) && PagingAccepted(FindAllOptions(filter, page2, size2))
    ensures FindAll(db, FindAllOptions(filter, page1, size1)).result.Ok?
    ensures FindAll(db, FindAllOptions(filter, page2, size2)).result.Ok?
    ensures FindAll(db, FindAllOptions(filter, page1, size1)).result.value.total
         == FindAll(db, FindAllOptions(filter, page2, size2)).result.value.total
  {
    FindAllOutcome(db, FindAllOptions(filter, page1, size1));
    FindAllOutcome(db, FindAllOptions(filter, page2, size2));
  }

  /** A stored teacher whose user is active comes back as `v`. */
  ghost predicate ShowsVisible(db: Db, v: Teacher) {
    exists t :: t in db.teachers && Visible(db, t) && v == Projected(t)
  }

  /** A page holds at most `pageSize` teachers, NULL `created_at` first and
      then newest first, each one a stored teacher with an active user. */
  lemma FindAllPage(db: Db, options: FindAllOptions)
    requires PagingAccepted(options)
    ensures FindAll(db, options).result.Ok?
    ensures var data := FindAll(db, options).result.value.data;
      && |data| <= PagingOf(options.page, options.pageSize).limit
      && (forall i, k :: 0 <= i < k < |data| ==>
            SortsBefore(data[i].created_at, data[k].created_at))
      && forall i :: 0 <= i < |data| ==> ShowsVisible(db, data[i])
  {
    var paging := PagingOf(options.page, options.pageSize);
    FindAllOutcome(db, options);
    assert FindAll(db, options).result.value.data
        == Teachers(Window(SortByCreated(FilterRows(db, options.filter)), paging.limit, paging.offset));
    PageOfMatches(db, options.filter, paging.limit, paging.offset);
  }

  /** One window of the sorted matches: at most `limit` teachers, in the
      server's order, each one a stored teacher with an active user. */
  lemma PageOfMatches(db: Db, filter: Option<Filter>, limit: nat, offset: nat)
    ensures var data := Teachers(Window(SortByCreated(FilterRows(db, filter)), limit, offset));
      && |data| <= limit
      && (forall i, k :: 0 <= i < k < |data| ==>
            SortsBefore(data[i].created_at, data[k].created_at))
      && forall i :: 0 <= i < |data| ==> ShowsVisible(db, data[i])
  {
    var sorted := SortByCreated(FilterRows(db, filter));
    var window := Window(sorted, limit, offset);
    var data := Teachers(window);
    forall i, k | 0 <= i < k < |data|
      ensures SortsBefore(data[i].created_at, data[k].created_at)
    {
      assert window[i] == sorted[offset + i] && window[k] == sorted[offset + k];
    }
    forall i | 0 <= i < |data| ensures ShowsVisible(db, data[i]) {
      assert window[i] == sorted[offset + i];
      assert window[i] in multiset(sorted);
      FilterRowsVisible(db, filter, window[i]);
    }
  }

  /** Every row the filter keeps is a teacher with an active user. */
  lemma FilterRowsVisible(db: Db, filter: Option<Filter>, j: Joined)
    requires j in FilterRows(db, filter)
    ensures j.teacher in db.teachers && Visible(db, j.teacher)
  {
    assert j in JoinedRows(db);
    assert j.user in db.users && j.user.isActive && Joins(j.teacher, j.user);
  }

  /** Without options the first hundred matches come back. */
  lemma DefaultPageIsFirstHundred(db: Db, filter: Option<Filter>)
    ensures FindAll(db, FindAllOptions(filter, None, None)).result
         == Ok(Page(Teachers(Window(SortByCreated(FilterRows(db, filter)), 100, 0)), |FilterRows(db, filter)|))
  {
    assert PagingOf(None, None) == Paging(DefaultPageSize, 0);
  }

  // ----- findById -----

  /** The findById condition: the teacher's id is the first parameter and
      the joined user is active. */
  predicate ByIdHolds(j: Joined, params: seq<SqlValue>) {
    Resolve(Placeholder(1), params) == Some(Column(j.teacher, "id")) && j.user.isActive
  }

  /** `findById`: the first joined row with the id and an active user, as
      the shared column list returns it, or null. */
  function FindById(db: Db, id: string): (r: Run<Option<Teacher>>)
    ensures IsSession(r.trace) && r.trace == [Connect, Exec(FindByIdSql, [SqlText(id)]), Release]
    ensures r.result.Ok?
    ensures r.result.value.None? <==> forall j :: j in JoinedRows(db) ==> !(HasId(j.teacher, id) && j.user.isActive)
    ensures r.result.value.Some? ==>
      var v := r.result.value.value;
      HasUuid(v, id) && exists t :: t in db.teachers && Visible(db, t) && HasId(t, id) && v == Projected(t)
  {
    var params := [SqlText(id)];
    ResolvePlaceholder(1, params);
    var hits := Select(JoinedRows(db), (j: Joined) => ByIdHolds(j, params));
    if hits == [] then WithClient(Run(Ok(None), [Exec(FindByIdSql, params)]))
    else
      assert hits[0] in hits;
      WithClient(Run(Ok(Some(Projected(hits[0].teacher))), [Exec(FindByIdSql, params)]))
  }

  // ----- the server's column checks -----

  const SyntaxErrorComma := "syntax error at or near \",\""
  const MissingAlias := "missing FROM-clause entry for table \"t\""
  const ColumnsWithoutValues := "INSERT has more target columns than expressions"

  function NoSuchColumn(k: string): string {
    "column \"" + k + "\" of relation \"teacher\" does not exist"
  }

  function SpecifiedTwice(k: string): string {
    "column \"" + k + "\" specified more than once"
  }

  function AssignedTwice(k: string): string {
    "multiple assignments to same column \"" + k + "\""
  }

  predicate Distinct(s: seq<string>) {
    forall i, j :: 0 <= i < j < |s| ==> s[i] != s[j]
  }

  /** An INSERT's column list, checked left to right: each name must be a
      column of the table, and none may come twice. */
  function InsertColumnsCheck(columns: seq<string>, seen: set<string>): (r: Option<string>)
    ensures r.None? <==>
      (forall i :: 0 <= i < |columns| ==> columns[i] in TableColumns && columns[i] !in seen) && Distinct(columns)
    decreases |columns|
  {
    if columns == [] then None
    else if columns[0] !in TableColumns then Some(NoSuchColumn(columns[0]))
    else if columns[0] in seen then Some(SpecifiedTwice(columns[0]))
    else
      var rest := InsertColumnsCheck(columns[1..], seen + {columns[0]});
      assert forall i :: 1 <= i < |columns| ==> columns[i] == columns[1..][i - 1];
      rest
  }

  /** The first name in the list that is not a column of the table. */
  function FirstUnknown(keys: seq<string>): (r: Option<string>)
    ensures r.None? <==> forall i :: 0 <= i < |keys| ==> keys[i] in TableColumns
    ensures r.Some? ==> r.value in keys && r.value !in TableColumns
    decreases |keys|
  {
    if keys == [] then None
    else if keys[0] !in TableColumns then Some(keys[0])
    else
      assert forall i :: 1 <= i < |keys| ==> keys[i] == keys[1..][i - 1];
      FirstUnknown(keys[1..])
  }

  /** The first name in the list that appeared before it (or in `seen`). */
  function FirstRepeated(keys: seq<string>, seen: set<string>): (r: Option<string>)
    ensures r.None? <==> Distinct(keys) && forall i :: 0 <= i < |keys| ==> keys[i] !in seen
    ensures r.Some? ==> r.value in keys
    decreases |keys|
  {
    if keys == [] then None
    else if keys[0] in seen then Some(keys[0])
    else
      assert forall i :: 1 <= i < |keys| ==> keys[i] == keys[1..][i - 1];
      FirstRepeated(keys[1..], seen + {keys[0]})
  }

  /** An UPDATE's SET list: first every name is looked up, then repeated
      assignments are refused. */
  function UpdateColumnsCheck(keys: seq<string>): Option<string> {
    match FirstUnknown(keys)
    case Some(k) => Some(NoSuchColumn(k))
    case None =>
      match FirstRepeated(keys, {})
      case Some(k) => Some(AssignedTwice(k))
      case None => None
  }

  /** Keys an INSERT accepts: at least one, each a column of the table other
      than `created_at` (which the statement sets itself), none twice. */
  predicate InsertableKeys(keys: seq<string>) {
    && keys != []
    && (forall i :: 0 <= i < |keys| ==> keys[i] in TableColumns && keys[i] != "created_at")
    && Distinct(keys)
  }

  /** Keys an UPDATE accepts: at least one, each a column of the table, none twice. */
  predicate UpdatableKeys(keys: seq<string>) {
    && keys != []
    && (forall i :: 0 <= i < |keys| ==> keys[i] in TableColumns)
    && Distinct(keys)
  }

  lemma InsertCheckMeaning(keys: seq<string>)
    requires keys != []
    ensures InsertColumnsCheck(keys + ["created_at"], {}).None? <==> InsertableKeys(keys)
  {
    var cols := keys + ["created_at"];
    assert forall i :: 0 <= i < |keys| ==> cols[i] == keys[i];
    assert cols[|keys|] == "created_at";
    if Distinct(cols) {
      forall i | 0 <= i < |keys| ensures keys[i] != "created_at" {
        assert cols[i] != cols[|keys|];
      }
    }
  }

  lemma UpdateCheckMeaning(keys: seq<string>)
    ensures UpdateColumnsCheck(keys).None? <==> (forall i :: 0 <= i < |keys| ==> keys[i] in TableColumns) && Distinct(keys)
  {
  }

  // ----- INSERT: createOne and createMany -----

  const InsertFailed := "Insert failed"

  /** The server executing an INSERT: parse it, check the column list,
      resolve the qualifier of the RETURNING list, bind the values. The new
      row takes its `id` from the column default unless the payload gives
      one, and `created_at` from `NOW()`. */
  function ExecInsert(db: Db, stmt: Option<InsertStatement>, params: seq<SqlValue>, id: string, now: int)
    : (r: Result<(seq<Teacher>, Db)>)
    ensures stmt.None? ==> r == Err(SyntaxErrorComma)
    ensures stmt.Some? && VisibleName(stmt.value.target) != ProjectionQualifier ==> r.Err?
    ensures r.Ok? ==>
      var after := r.value.1;
      && after.users == db.users
      && |after.teachers| == |db.teachers| + 1
      && after.teachers[..|db.teachers|] == db.teachers
      && CreatedAt(after.teachers[|db.teachers|]) == SqlInt(now)
      && r.value.0 == [Projected(after.teachers[|db.teachers|])]
  {
    match stmt
    case None => Err(SyntaxErrorComma)
    case Some(s) =>
      if |s.columns| != |s.placeholders| then Err(ColumnsWithoutValues)
      else match InsertColumnsCheck(s.columns + ["created_at"], {})
        case Some(e) => Err(e)
        case None =>
          if VisibleName(s.target) != ProjectionQualifier then Err(MissingAlias)
          else match BindColumns(s.columns, s.placeholders, params)
            case None => Err(UnboundParameter)
            case Some(m) =>
              var row := TeacherRow((map["id" := SqlText(id)] + m)["created_at" := SqlInt(now)]);
              assert (db.teachers + [row])[..|db.teachers|] == db.teachers;
              Ok(([Projected(row)], Db(db.teachers + [row], db.users)))
  }

  /** The row a valid payload creates. */
  function NewTeacher(p: Payload, id: string, now: int): TeacherRow {
    TeacherRow((map["id" := SqlText(id)] + PayloadMap(p))["created_at" := SqlInt(now)])
  }

  /** The new row holds each key's value, the generated id unless the
      payload gives one, the insertion time, and NULL in every other column. */
  lemma NewTeacherColumns(p: Payload, id: string, now: int)
    requires InsertableKeys(Keys(p))
    ensures forall i :: 0 <= i < |p| ==> Column(NewTeacher(p, id, now), p[i].0) == p[i].1
    ensures "id" !in Keys(p) ==> HasId(NewTeacher(p, id, now), id)
    ensures CreatedAt(NewTeacher(p, id, now)) == SqlInt(now)
    ensures forall k :: k !in Keys(p) && k != "id" && k != "created_at" ==> Column(NewTeacher(p, id, now), k) == SqlNull
  {
    forall i | 0 <= i < |p| ensures p[i].0 != "created_at" {
      assert Keys(p)[i] == p[i].0;
    }
  }

  function InsertEvent(target: Target, p: Payload): Event {
    Exec(InsertSql(target, Keys(p)), Values(p))
  }

  /** Whether the INSERT of a payload succeeds against a target. */
  predicate Inserts(target: Target, p: Payload) {
    InsertableKeys(Keys(p)) && VisibleName(target) == ProjectionQualifier
  }

  /** One INSERT and `rows[0]`: the body of `createOne`, and of each turn of
      the `createMany` loop. */
  function InsertOne(db: Db, target: Target, p: Payload, id: string, now: int): (o: Outcome<Teacher>)
    ensures o.run.trace == [InsertEvent(target, p)]
    ensures o.run.result.Err? ==> o.db == db
    ensures o.run.result.Ok? ==>
      && o.db.users == db.users
      && |o.db.teachers| == |db.teachers| + 1
      && o.db.teachers[..|db.teachers|] == db.teachers
      && o.run.result.value == Projected(o.db.teachers[|db.teachers|])
  {
    var ev := InsertEvent(target, p);
    match ExecInsert(db, ParseInsert(target, Keys(p)), Values(p), id, now)
    case Err(e) => Outcome(Run(Err(e), [ev]), db)
    case Ok((rows, after)) =>
      if |rows| == 0 then Outcome(Run(Err(InsertFailed), [ev]), db)
      else Outcome(Run(Ok(rows[0]), [ev]), after)
  }

  /** The server's answer to the INSERT built from a non-empty payload. */
  lemma ExecInsertMeaning(db: Db, target: Target, p: Payload, id: string, now: int)
    requires p != []
    ensures ExecInsert(db, ParseInsert(target, Keys(p)), Values(p), id, now).Ok? <==> Inserts(target, p)
    ensures ExecInsert(db, ParseInsert(target, Keys(p)), Values(p), id, now).Ok? ==>
      ExecInsert(db, ParseInsert(target, Keys(p)), Values(p), id, now).value
        == ([Projected(NewTeacher(p, id, now))], Db(db.teachers + [NewTeacher(p, id, now)], db.users))
    ensures InsertableKeys(Keys(p)) && VisibleName(target) != ProjectionQualifier ==>
      ExecInsert(db, ParseInsert(target, Keys(p)), Values(p), id, now) == Err(MissingAlias)
  {
    InsertCheckMeaning(Keys(p));
    InsertAlignment(target, p);
  }

  lemma InsertOneMeaning(db: Db, target: Target, p: Payload, id: string, now: int)
    ensures var o := InsertOne(db, target, p, id, now);
      && o.run.trace == [InsertEvent(target, p)]
      && (o.run.result.Ok? <==> Inserts(target, p))
      && (o.run.result.Ok? ==>
           o.run.result.value == Projected(NewTeacher(p, id, now)) && o.db == Db(db.teachers + [NewTeacher(p, id, now)], db.users))
      && (o.run.result.Err? ==> o.db == db)
      && (p == [] ==> o.run.result == Err(SyntaxErrorComma))
      && (InsertableKeys(Keys(p)) && VisibleName(target) != ProjectionQualifier ==> o.run.result == Err(MissingAlias))
  {
    if p == [] {
      assert Keys(p) == [];
    } else {
      ExecInsertMeaning(db, target, p, id, now);
    }
  }

  /** `createOne` run against a given INSERT target. */
  function CreateOneOn(target: Target, db: Db, p: Payload, id: string, now: int): Outcome<Teacher> {
    var body := InsertOne(db, target, p, id, now);
    Outcome(Transaction(body.run), if body.run.result.Ok? then body.db else db)
  }

  /** `createOne`, with the INSERT target aliased so that its RETURNING list resolves. */
  function CreateOne(db: Db, p: Payload, id: string, now: int): (o: Outcome<Teacher>)
    ensures IsSession(o.run.trace)
    ensures o.run.trace == [Connect, Begin, InsertEvent(AliasedTarget, p), if o.run.result.Ok? then Commit else Rollback, Release]
    ensures o.run.result.Ok? <==> InsertableKeys(Keys(p))
    ensures p == [] ==> o.run.result == Err(SyntaxErrorComma)
    ensures o.run.result.Ok? ==>
      o.run.result.value == Projected(NewTeacher(p, id, now)) && o.db == Db(db.teachers + [NewTeacher(p, id, now)], db.users)
    ensures o.run.result.Err? ==> o.db == db
  {
    InsertOneMeaning(db, AliasedTarget, p, id, now);
    TransactionOfOne(InsertOne(db, AliasedTarget, p, id, now).run);
    CreateOneOn(AliasedTarget, db, p, id, now)
  }

  /** `createOne` as the repository writes it: `INSERT INTO teacher` with
      no alias, under a RETURNING list that qualifies every column with `t`. */
  function CreateOneAsWritten(db: Db, p: Payload, id: string, now: int): Outcome<Teacher> {
    CreateOneOn(WrittenTarget, db, p, id, now)
  }

  /** As written, no payload is ever stored: a valid one fails on the
      undeclared alias, and the transaction rolls back. */
  lemma CreateOneAsWrittenNeverStores(db: Db, p: Payload, id: string, now: int)
    ensures CreateOneAsWritten(db, p, id, now).run.result.Err?
    ensures CreateOneAsWritten(db, p, id, now).db == db
    ensures InsertableKeys(Keys(p)) ==> CreateOneAsWritten(db, p, id, now).run.result == Err(MissingAlias)
  {
    InsertOneMeaning(db, WrittenTarget, p, id, now);
  }

  /** Steps `k` to `count - 1` of a loop, in order, each run on the state the
      previous one left; the loop stops at the first step that fails. */
  function InOrder(db: Db, step: (Db, nat) -> Outcome<Teacher>, k: nat, count: nat): Outcome<seq<Teacher>>
    requires k <= count
    decreases count - k
  {
    if k == count then Outcome(Run(Ok([]), []), db)
    else
      var first := step(db, k);
      match first.run.result
      case Err(e) => Outcome(Run(Err(e), first.run.trace), first.db)
      case Ok(row) =>
        var rest := InOrder(first.db, step, k + 1, count);
        var result := match rest.run.result
          case Ok(rows) => Ok([row] + rows)
          case Err(e) => Err(e);
        Outcome(Run(result, first.run.trace + rest.run.trace), rest.db)
  }

  /** Each step `i` sends exactly the one statement `sent(i)`, whatever the state. */
  ghost predicate StepsSend(step: (Db, nat) -> Outcome<Teacher>, sent: nat -> Event, k: nat, count: nat) {
    forall d: Db, i: nat :: k <= i < count ==> step(d, i).run.trace == [sent(i)]
  }

  /** Step `i` succeeds exactly when `ok(i)`, whatever the state. */
  ghost predicate StepsSucceed(step: (Db, nat) -> Outcome<Teacher>, ok: nat -> bool, k: nat, count: nat) {
    forall d: Db, i: nat :: k <= i < count ==> (step(d, i).run.result.Ok? <==> ok(i))
  }

  /** A step `i` that succeeds appends `row(i)` to the table and returns it
      as the shared column list gives it. */
  ghost predicate StepsAppend(step: (Db, nat) -> Outcome<Teacher>, row: nat -> TeacherRow, k: nat, count: nat) {
    forall d: Db, i: nat :: k <= i < count && step(d, i).run.result.Ok? ==>
      step(d, i).run.result.value == Projected(row(i)) && step(d, i).db == Db(d.teachers + [row(i)], d.users)
  }

  /** The loop finishes exactly when every remaining step succeeds. */
  lemma {:induction false} InOrderSucceeds(db: Db, step: (Db, nat) -> Outcome<Teacher>, ok: nat -> bool, k: nat, count: nat)
    requires k <= count && StepsSucceed(step, ok, k, count)
    ensures InOrder(db, step, k, count).run.result.Ok? <==> forall i :: k <= i < count ==> ok(i)
    decreases count - k
  {
    if k < count && step(db, k).run.result.Ok? {
      InOrderSucceeds(step(db, k).db, step, ok, k + 1, count);
    }
  }

  /** The rows of steps `k` to `count - 1`, in order. */
  function Rows(row: nat -> TeacherRow, k: nat, count: nat): (rows: seq<TeacherRow>)
    requires k <= count
    ensures |rows| == count - k
    ensures forall i :: 0 <= i < count - k ==> rows[i] == row(k + i)
    decreases count - k
  {
    if k == count then [] else [row(k)] + Rows(row, k + 1, count)
  }

  /** A finished loop returns the rows of the steps, in order. */
  lemma {:induction false} InOrderReturns(db: Db, step: (Db, nat) -> Outcome<Teacher>, row: nat -> TeacherRow, k: nat, count: nat)
    requires k <= count && StepsAppend(step, row, k, count)
    ensures InOrder(db, step, k, count).run.result.Ok? ==>
      InOrder(db, step, k, count).run.result.value == ProjectAll(Rows(row, k, count))
    decreases count - k
  {
    if k < count && step(db, k).run.result.Ok? {
      var first := step(db, k);
      assert first.run.result.value == Projected(row(k));
      InOrderReturns(first.db, step, row, k + 1, count);
      var tail := Rows(row, k + 1, count);
      assert ([row(k)] + tail)[1..] == tail;
    }
  }

  /** After a finished loop the table holds the rows of the steps after the
      rows it had. */
  lemma {:induction false} InOrderStores(db: Db, step: (Db, nat) -> Outcome<Teacher>, row: nat -> TeacherRow, k: nat, count: nat)
    requires k <= count && StepsAppend(step, row, k, count)
    ensures InOrder(db, step, k, count).run.result.Ok? ==>
      InOrder(db, step, k, count).db == Db(db.teachers + Rows(row, k, count), db.users)
    decreases count - k
  {
    if k < count && step(db, k).run.result.Ok? {
      var after := step(db, k).db;
      assert after == Db(db.teachers + [row(k)], db.users);
      InOrderStores(after, step, row, k + 1, count);
      var tail := Rows(row, k + 1, count);
      assert db.teachers + [row(k)] + tail == db.teachers + ([row(k)] + tail);
    }
  }

  /** The loop sends one statement per step that finishes: all of them when
      it goes through. */
  lemma {:induction false} InOrderSendsCount(db: Db, step: (Db, nat) -> Outcome<Teacher>, sent: nat -> Event, k: nat, count: nat)
    requires k <= count && StepsSend(step, sent, k, count)
    ensures |InOrder(db, step, k, count).run.trace| <= count - k
    ensures InOrder(db, step, k, count).run.result.Ok? ==> |InOrder(db, step, k, count).run.trace| == count - k
    decreases count - k
  {
    if k < count {
      var first := step(db, k);
      assert |first.run.trace| == 1;
      if first.run.result.Ok? {
        InOrderSendsCount(first.db, step, sent, k + 1, count);
      }
    }
  }

  /** The statements the loop sends are those of its steps, in order. */
  lemma {:induction false} InOrderSends(db: Db, step: (Db, nat) -> Outcome<Teacher>, sent: nat -> Event, k: nat, count: nat)
    requires k <= count && StepsSend(step, sent, k, count)
    ensures forall i :: 0 <= i < |InOrder(db, step, k, count).run.trace| ==>
      InOrder(db, step, k, count).run.trace[i] == sent(k + i)
    decreases count - k
  {
    if k < count {
      var first := step(db, k);
      var trace := InOrder(db, step, k, count).run.trace;
      assert first.run.trace == [sent(k)];
      if first.run.result.Ok? {
        var rest := InOrder(first.db, step, k + 1, count).run.trace;
        InOrderSends(first.db, step, sent, k + 1, count);
        assert trace == [sent(k)] + rest;
        forall i | 0 < i < |trace| ensures trace[i] == sent(k + i) {
          var j := i - 1;
          assert trace[i] == rest[j] == sent(k + 1 + j);
          assert k + 1 + j == k + i;
        }
      }
    }
  }

  /** A loop that fails stops at the first step that fails: the last
      statement sent is that step's. */
  lemma {:induction false} InOrderStops(
    db: Db, step: (Db, nat) -> Outcome<Teacher>, ok: nat -> bool, sent: nat -> Event, k: nat, count: nat)
    requires k <= count && StepsSend(step, sent, k, count) && StepsSucceed(step, ok, k, count)
    ensures InOrder(db, step, k, count).run.result.Err? ==>
      1 <= |InOrder(db, step, k, count).run.trace| <= count - k
      && !ok(k + |InOrder(db, step, k, count).run.trace| - 1)
    ensures InOrder(db, step, k, count).run.result.Err? ==>
      forall i :: k <= i < k + |InOrder(db, step, k, count).run.trace| - 1 ==> ok(i)
    decreases count - k
  {
    if k < count && step(db, k).run.result.Ok? {
      InOrderStops(step(db, k).db, step, ok, sent, k + 1, count);
    }
  }

  /** The loop of `createMany`: item `i` is inserted with id `ids(i)`. */
  function InsertSteps(target: Target, items: seq<Payload>, ids: nat -> string, now: int): (Db, nat) -> Outcome<Teacher> {
    (d: Db, i: nat) => InsertOne(d, target, if i < |items| then items[i] else [], ids(i), now)
  }

  function Insertable(target: Target, items: seq<Payload>): nat -> bool {
    (i: nat) => i < |items| && Inserts(target, items[i])
  }

  function InsertEvents(target: Target, items: seq<Payload>): nat -> Event {
    (i: nat) => InsertEvent(target, if i < |items| then items[i] else [])
  }

  function NewRows(items: seq<Payload>, ids: nat -> string, now: int): nat -> TeacherRow {
    (i: nat) => NewTeacher(if i < |items| then items[i] else [], ids(i), now)
  }

  lemma InsertLambdas(target: Target, items: seq<Payload>, ids: nat -> string, now: int)
    ensures forall i :: 0 <= i < |items| ==> (Insertable(target, items)(i) <==> Inserts(target, items[i]))
    ensures forall i :: 0 <= i < |items| ==> NewRows(items, ids, now)(i) == NewTeacher(items[i], ids(i), now)
    ensures forall i :: 0 <= i < |items| ==> InsertEvents(target, items)(i) == InsertEvent(target, items[i])
  {
  }

  /** Each turn of the `createMany` loop sends its item's INSERT. */
  lemma InsertStepsSend(target: Target, items: seq<Payload>, ids: nat -> string, now: int)
    ensures StepsSend(InsertSteps(target, items, ids, now), InsertEvents(target, items), 0, |items|)
  {
    forall d: Db, i: nat | 0 <= i < |items|
      ensures InsertSteps(target, items, ids, now)(d, i).run.trace == [InsertEvents(target, items)(i)]
    {
      InsertOneMeaning(d, target, items[i], ids(i), now);
    }
  }

  /** Each turn succeeds exactly when its item inserts. */
  lemma InsertStepsSucceed(target: Target, items: seq<Payload>, ids: nat -> string, now: int)
    ensures StepsSucceed(InsertSteps(target, items, ids, now), Insertable(target, items), 0, |items|)
  {
    forall d: Db, i: nat | 0 <= i < |items|
      ensures InsertSteps(target, items, ids, now)(d, i).run.result.Ok? <==> Insertable(target, items)(i)
    {
      InsertOneMeaning(d, target, items[i], ids(i), now);
    }
  }

  /** Each turn that succeeds appends its item's new row. */
  lemma InsertStepsAppend(target: Target, items: seq<Payload>, ids: nat -> string, now: int)
    ensures StepsAppend(InsertSteps(target, items, ids, now), NewRows(items, ids, now), 0, |items|)
  {
    forall d: Db, i: nat | 0 <= i < |items| && InsertSteps(target, items, ids, now)(d, i).run.result.Ok?
      ensures var step := InsertSteps(target, items, ids, now)(d, i);
        step.run.result.value == Projected(NewRows(items, ids, now)(i))
        && step.db == Db(d.teachers + [NewRows(items, ids, now)(i)], d.users)
    {
      InsertOneMeaning(d, target, items[i], ids(i), now);
    }
  }

  const BatchLimit := 300
  const BatchTooLarge := "Batch size exceeds 300"

  /** The `createMany` callback: refuse more than 300 items, otherwise insert
      them one by one. */
  function InsertBatch(db: Db, target: Target, items: seq<Payload>, ids: nat -> string, now: int)
    : (o: Outcome<seq<Teacher>>)
    ensures OnlyStatements(o.run.trace)
    ensures |items| > BatchLimit ==> o.run == Run(Err(BatchTooLarge), []) && o.db == db
  {
    if |items| > BatchLimit then Outcome(Run(Err(BatchTooLarge), []), db)
    else
      var step := InsertSteps(target, items, ids, now);
      InsertStepsSend(target, items, ids, now);
      InOrderSendsCount(db, step, InsertEvents(target, items), 0, |items|);
      InOrderSends(db, step, InsertEvents(target, items), 0, |items|);
      InsertLambdas(target, items, ids, now);
      InOrder(db, step, 0, |items|)
  }

  /** A batch of at most 300 goes through exactly when every item inserts. */
  lemma InsertBatchSucceeds(db: Db, target: Target, items: seq<Payload>, ids: nat -> string, now: int)
    requires |items| <= BatchLimit
    ensures InsertBatch(db, target, items, ids, now).run.result.Ok? <==> forall i :: 0 <= i < |items| ==> Inserts(target, items[i])
  {
    InsertStepsSucceed(target, items, ids, now);
    InsertLambdas(target, items, ids, now);
    InOrderSucceeds(db, InsertSteps(target, items, ids, now), Insertable(target, items), 0, |items|);
  }

  /** A batch that goes through returns one new row per item, in order, and
      the table holds them after the rows it had. */
  lemma InsertBatchStores(db: Db, target: Target, items: seq<Payload>, ids: nat -> string, now: int)
    ensures var o := InsertBatch(db, target, items, ids, now);
      o.run.result.Ok? ==>
      && o.run.result.value == ProjectAll(NewTeachers(items, ids, now))
      && o.db == Db(db.teachers + NewTeachers(items, ids, now), db.users)
  {
    if |items| <= BatchLimit {
      InsertStepsAppend(target, items, ids, now);
      InsertLambdas(target, items, ids, now);
      InOrderReturns(db, InsertSteps(target, items, ids, now), NewRows(items, ids, now), 0, |items|);
      InOrderStores(db, InsertSteps(target, items, ids, now), NewRows(items, ids, now), 0, |items|);
      RowsAreNewTeachers(items, ids, now);
    }
  }

  /** The rows a batch creates, item by item. */
  function NewTeachers(items: seq<Payload>, ids: nat -> string, now: int): (ts: seq<TeacherRow>)
    ensures |ts| == |items| && forall i :: 0 <= i < |items| ==> ts[i] == NewTeacher(items[i], ids(i), now)
  {
    seq(|items|, i requires 0 <= i < |items| => NewTeacher(items[i], ids(i), now))
  }

  lemma RowsAreNewTeachers(items: seq<Payload>, ids: nat -> string, now: int)
    ensures Rows(NewRows(items, ids, now), 0, |items|) == NewTeachers(items, ids, now)
  {
    var a, b := Rows(NewRows(items, ids, now), 0, |items|), NewTeachers(items, ids, now);
    forall i | 0 <= i < |items| ensures a[i] == b[i] {
      assert a[i] == NewRows(items, ids, now)(0 + i);
      assert 0 + i == i;
    }
  }

  /** A batch of at most 300 sends one statement per item that finishes: all
      of them when it goes through. */
  lemma InsertBatchSendsCount(db: Db, target: Target, items: seq<Payload>, ids: nat -> string, now: int)
    requires |items| <= BatchLimit
    ensures |InsertBatch(db, target, items, ids, now).run.trace| <= |items|
    ensures InsertBatch(db, target, items, ids, now).run.result.Ok? ==>
      |InsertBatch(db, target, items, ids, now).run.trace| == |items|
  {
    InsertStepsSend(target, items, ids, now);
    InOrderSendsCount(db, InsertSteps(target, items, ids, now), InsertEvents(target, items), 0, |items|);
  }

  /** The statements a batch sends are the INSERTs of its items, in order. */
  lemma InsertBatchSendsInOrder(db: Db, target: Target, items: seq<Payload>, ids: nat -> string, now: int)
    requires |items| <= BatchLimit
    ensures forall i :: 0 <= i < |InsertBatch(db, target, items, ids, now).run.trace| && i < |items| ==>
      InsertBatch(db, target, items, ids, now).run.trace[i] == InsertEvent(target, items[i])
  {
    var sent := InsertEvents(target, items);
    InsertStepsSend(target, items, ids, now);
    InOrderSends(db, InsertSteps(target, items, ids, now), sent, 0, |items|);
    InsertLambdas(target, items, ids, now);
    var trace := InsertBatch(db, target, items, ids, now).run.trace;
    forall i | 0 <= i < |trace| && i < |items| ensures trace[i] == InsertEvent(target, items[i]) {
      assert trace[i] == sent(0 + i);
      assert 0 + i == i;
    }
  }

  /** A batch that fails stops at an item that does not insert: its INSERT
      is the last statement sent. */
  lemma InsertBatchStopsAt(db: Db, target: Target, items: seq<Payload>, ids: nat -> string, now: int)
    requires |items| <= BatchLimit
    ensures var o := InsertBatch(db, target, items, ids, now);
      o.run.result.Err? ==> 1 <= |o.run.trace| <= |items| && !Inserts(target, items[|o.run.trace| - 1])
  {
    var ok := Insertable(target, items);
    InsertStepsSend(target, items, ids, now);
    InsertStepsSucceed(target, items, ids, now);
    var step := InsertSteps(target, items, ids, now);
    InOrderStops(db, step, ok, InsertEvents(target, items), 0, |items|);
    var o := InOrder(db, step, 0, |items|);
    assert InsertBatch(db, target, items, ids, now) == o;
    if o.run.result.Err? {
      var j := |o.run.trace| - 1;
      assert !ok(0 + |o.run.trace| - 1);
      assert 0 + |o.run.trace| - 1 == j;
      assert !ok(j);
    }
  }

  /** Every item before the one a failed batch stops at does insert. */
  lemma InsertBatchStopsFirst(db: Db, target: Target, items: seq<Payload>, ids: nat -> string, now: int)
    requires |items| <= BatchLimit
    ensures var o := InsertBatch(db, target, items, ids, now);
      o.run.result.Err? ==> forall i :: 0 <= i < |o.run.trace| - 1 && i < |items| ==> Inserts(target, items[i])
  {
    InsertStepsSend(target, items, ids, now);
    InsertStepsSucceed(target, items, ids, now);
    InOrderStops(db, InsertSteps(target, items, ids, now), Insertable(target, items), InsertEvents(target, items), 0, |items|);
    InsertLambdas(target, items, ids, now);
  }

  /** `createMany`: all items stored, in order, or none. */
  function CreateMany(db: Db, items: seq<Payload>, ids: nat -> string, now: int): (o: Outcome<seq<Teacher>>)
    ensures IsSession(o.run.trace)
    ensures |items| > BatchLimit ==> o.run == Run(Err(BatchTooLarge), [Connect, Begin, Rollback, Release])
    ensures o.run.result.Ok? <==>
      |items| <= BatchLimit && forall i :: 0 <= i < |items| ==> InsertableKeys(Keys(items[i]))
    ensures o.run.result.Ok? ==>
      && o.run.result.value == ProjectAll(NewTeachers(items, ids, now))
      && o.db == Db(db.teachers + NewTeachers(items, ids, now), db.users)
    ensures o.run.result.Err? ==> o.db == db
  {
    var body := InsertBatch(db, AliasedTarget, items, ids, now);
    var run := Transaction(body.run);
    if |items| > BatchLimit then
      TransactionOfNone(body.run);
      Outcome(run, db)
    else
      InsertBatchSucceeds(db, AliasedTarget, items, ids, now);
      InsertBatchStores(db, AliasedTarget, items, ids, now);
      Outcome(run, if run.result.Ok? then body.db else db)
  }

  /** `createMany` as the repository writes it, without the alias: only the
      empty batch succeeds, and nothing is ever stored. */
  function CreateManyAsWritten(db: Db, items: seq<Payload>, ids: nat -> string, now: int): (o: Outcome<seq<Teacher>>)
    ensures IsSession(o.run.trace)
    ensures o.run.result.Ok? <==> items == []
    ensures o.db == db
  {
    var body := InsertBatch(db, WrittenTarget, items, ids, now);
    var run := Transaction(body.run);
    if |items| > BatchLimit then Outcome(run, db)
    else
      InsertBatchSucceeds(db, WrittenTarget, items, ids, now);
      assert items != [] ==> !Inserts(WrittenTarget, items[0]);
      Outcome(run, if run.result.Ok? then body.db else db)
  }

  // ----- UPDATE -----

  const NoDataToUpdate := "No data to update"
  const UpdateFailed := "Update failed"

  /** Each row whose id equals `idValue`, with the SET columns replaced. */
  function PatchRows(teachers: seq<TeacherRow>, idValue: SqlValue, m: map<string, SqlValue>): (r: seq<TeacherRow>)
    ensures |r| == |teachers|
    ensures forall i :: 0 <= i < |teachers| ==>
      r[i] == if Column(teachers[i], "id") == idValue then TeacherRow(teachers[i].columns + m) else teachers[i]
  {
    seq(|teachers|, i requires 0 <= i < |teachers| =>
      if Column(teachers[i], "id") == idValue then TeacherRow(teachers[i].columns + m) else teachers[i])
  }

  /** The rows RETURNING reports: the updated rows, in table order. */
  function UpdatedRows(teachers: seq<TeacherRow>, idValue: SqlValue, m: map<string, SqlValue>): (r: seq<TeacherRow>)
    ensures r == [] <==> forall i :: 0 <= i < |teachers| ==> Column(teachers[i], "id") != idValue
    ensures r != [] ==> exists i :: (
      0 <= i < |teachers| && Column(teachers[i], "id") == idValue && r[0] == TeacherRow(teachers[i].columns + m))
    decreases |teachers|
  {
    if teachers == [] then []
    else
      var rest := UpdatedRows(teachers[1..], idValue, m);
      assert forall i :: 1 <= i < |teachers| ==> teachers[i] == teachers[1..][i - 1];
      if Column(teachers[0], "id") == idValue then [TeacherRow(teachers[0].columns + m)] + rest
      else rest
  }

  /** The server executing an UPDATE: resolve the RETURNING list's qualifier,
      check the SET list, bind the values and the id, then change every row
      with that id. */
  function ExecUpdate(db: Db, s: UpdateStatement, params: seq<SqlValue>): (r: Result<(seq<Teacher>, Db)>)
    ensures VisibleName(s.target) != ProjectionQualifier ==> r == Err(MissingAlias)
    ensures r.Ok? ==> r.value.1.users == db.users && |r.value.1.teachers| == |db.teachers|
  {
    if VisibleName(s.target) != ProjectionQualifier then Err(MissingAlias)
    else if |s.columns| != |s.placeholders| then Err(UnboundParameter)
    else match UpdateColumnsCheck(s.columns)
      case Some(e) => Err(e)
      case None =>
        match (BindColumns(s.columns, s.placeholders, params), Resolve(s.idPlaceholder, params))
        case (Some(m), Some(idValue)) =>
          Ok((ProjectAll(UpdatedRows(db.teachers, idValue, m)), Db(PatchRows(db.teachers, idValue, m), db.users)))
        case _ => Err(UnboundParameter)
  }

  /** A teacher after the update: the payload's columns replaced, the rest kept. */
  function Patched(t: TeacherRow, p: Payload): TeacherRow {
    TeacherRow(t.columns + PayloadMap(p))
  }

  lemma PatchedColumns(t: TeacherRow, p: Payload)
    requires DistinctKeys(p)
    ensures forall i :: 0 <= i < |p| ==> Column(Patched(t, p), p[i].0) == p[i].1
    ensures forall k :: k !in Keys(p) ==> Column(Patched(t, p), k) == Column(t, k)
  {
  }

  function UpdateEvent(target: Target, id: string, p: Payload): Event {
    Exec(UpdateSql(target, Keys(p)), UpdateParams(p, id))
  }

  /** The `update` callback against a given UPDATE target. */
  function UpdateBody(db: Db, target: Target, id: string, p: Payload): (o: Outcome<Teacher>)
    ensures Keys(p) == [] ==> o.run == Run(Err(NoDataToUpdate), []) && o.db == db
    ensures Keys(p) != [] ==> o.run.trace == [UpdateEvent(target, id, p)]
    ensures o.run.result.Err? ==> o.db == db
    ensures o.run.result.Ok? ==> o.db.users == db.users && |o.db.teachers| == |db.teachers|
  {
    if Keys(p) == [] then Outcome(Run(Err(NoDataToUpdate), []), db)
    else
      var ev := UpdateEvent(target, id, p);
      match ExecUpdate(db, ParseUpdate(target, Keys(p)), UpdateParams(p, id))
      case Err(e) => Outcome(Run(Err(e), [ev]), db)
      case Ok((rows, after)) =>
        if |rows| == 0 then Outcome(Run(Err(UpdateFailed), [ev]), db)
        else Outcome(Run(Ok(rows[0]), [ev]), after)
  }

  predicate SomeTeacherHasId(db: Db, id: string) {
    exists i :: 0 <= i < |db.teachers| && HasId(db.teachers[i], id)
  }

  /** The server's answer to the aliased UPDATE built from a non-empty payload. */
  lemma ExecUpdateMeaning(db: Db, id: string, p: Payload)
    requires p != []
    ensures var r := ExecUpdate(db, ParseUpdate(AliasedTarget, Keys(p)), UpdateParams(p, id));
      && (r.Ok? <==> UpdatableKeys(Keys(p)))
      && (r.Ok? ==> r.value == (ProjectAll(UpdatedRows(db.teachers, SqlText(id), PayloadMap(p))),
                                Db(PatchRows(db.teachers, SqlText(id), PayloadMap(p)), db.users)))
  {
    UpdateAlignment(AliasedTarget, p, id);
    UpdateCheckMeaning(Keys(p));
  }

  /** RETURNING reports a row exactly when some teacher has the id, and the
      first one it reports is such a teacher, patched. */
  lemma UpdatedRowsMeaning(db: Db, id: string, p: Payload)
    ensures var rows := UpdatedRows(db.teachers, SqlText(id), PayloadMap(p));
      && (rows != [] <==> SomeTeacherHasId(db, id))
      && (rows != [] ==> exists i :: 0 <= i < |db.teachers| && HasId(db.teachers[i], id) && rows[0] == Patched(db.teachers[i], p))
  {
    var rows := UpdatedRows(db.teachers, SqlText(id), PayloadMap(p));
    if rows != [] {
      var i :| 0 <= i < |db.teachers| && Column(db.teachers[i], "id") == SqlText(id)
        && rows[0] == TeacherRow(db.teachers[i].columns + PayloadMap(p));
      assert HasId(db.teachers[i], id);
    }
    if SomeTeacherHasId(db, id) {
      var i :| 0 <= i < |db.teachers| && HasId(db.teachers[i], id);
      assert Column(db.teachers[i], "id") == SqlText(id);
    }
  }

  lemma UpdateBodyMeaning(db: Db, id: string, p: Payload)
    requires p != []
    ensures var o := UpdateBody(db, AliasedTarget, id, p);
      && o.run.trace == [UpdateEvent(AliasedTarget, id, p)]
      && (o.run.result.Ok? <==> UpdatableKeys(Keys(p)) && SomeTeacherHasId(db, id))
      && (UpdatableKeys(Keys(p)) && !SomeTeacherHasId(db, id) ==> o.run.result == Err(UpdateFailed))
      && (o.run.result.Err? ==> o.db == db)
      && (o.run.result.Ok? ==>
           && o.db.users == db.users
           && o.db.teachers == PatchRows(db.teachers, SqlText(id), PayloadMap(p))
           && exists i :: 0 <= i < |db.teachers| && HasId(db.teachers[i], id) && o.run.result.value == Projected(Patched(db.teachers[i], p)))
  {
    assert Keys(p) != [];
    ExecUpdateMeaning(db, id, p);
    UpdatedRowsMeaning(db, id, p);
  }

  /** `update`, with the UPDATE target aliased so that its RETURNING list resolves. */
  function Update(db: Db, id: string, p: Payload): (o: Outcome<Teacher>)
    ensures IsSession(o.run.trace)
    ensures p == [] ==> o.run == Run(Err(NoDataToUpdate), [Connect, Begin, Rollback, Release]) && o.db == db
    ensures p != [] ==>
      o.run.trace == [Connect, Begin, UpdateEvent(AliasedTarget, id, p), if o.run.result.Ok? then Commit else Rollback, Release]
    ensures o.run.result.Ok? <==> UpdatableKeys(Keys(p)) && SomeTeacherHasId(db, id)
    ensures UpdatableKeys(Keys(p)) && !SomeTeacherHasId(db, id) ==> o.run.result == Err(UpdateFailed)
    ensures o.run.result.Ok? ==>
      && o.db.users == db.users
      && |o.db.teachers| == |db.teachers|
      && (forall i :: 0 <= i < |db.teachers| ==>
            o.db.teachers[i] == if HasId(db.teachers[i], id) then Patched(db.teachers[i], p) else db.teachers[i])
      && exists i :: 0 <= i < |db.teachers| && HasId(db.teachers[i], id) && o.run.result.value == Projected(Patched(db.teachers[i], p))
    ensures o.run.result.Err? ==> o.db == db
  {
    var body := UpdateBody(db, AliasedTarget, id, p);
    var o := Outcome(Transaction(body.run), if body.run.result.Ok? then body.db else db);
    if p == [] then
      TransactionOfNone(body.run);
      o
    else
      UpdateBodyMeaning(db, id, p);
      TransactionOfOne(body.run);
      o
  }

  /** `update` as the repository writes it: `UPDATE teacher` with no alias. */
  function UpdateAsWritten(db: Db, id: string, p: Payload): Outcome<Teacher> {
    var body := UpdateBody(db, WrittenTarget, id, p);
    Outcome(Transaction(body.run), if body.run.result.Ok? then body.db else db)
  }

  /** As written, no update ever happens: any non-empty payload fails on the
      undeclared alias, before the SET list is even looked at. */
  lemma UpdateAsWrittenNeverChanges(db: Db, id: string, p: Payload)
    requires p != []
    ensures UpdateAsWritten(db, id, p).run.result == Err(MissingAlias)
    ensures UpdateAsWritten(db, id, p).db == db
  {
    assert Keys(p) != [];
  }

  // ----- softDelete -----

  const SubqueryRows := "more than one row returned by a subquery used as an expression"
  const SoftDeleteFailed := "Soft delete failed"

  /** The teacher rows with the id, in table order. */
  function WithId(teachers: seq<TeacherRow>, id: string): (r: seq<TeacherRow>)
    ensures forall t :: t in r <==> t in teachers && HasId(t, id)
    decreases |teachers|
  {
    if teachers == [] then []
    else
      assert teachers == [teachers[0]] + teachers[1..];
      (if HasId(teachers[0], id) then [teachers[0]] else []) + WithId(teachers[1..], id)
  }

  /** The users after the soft delete's UPDATE: every user whose id is `fk`
      is made inactive, the others are kept. */
  function Deactivate(users: seq<AuthRepo.UserRow>, fk: SqlValue): (r: seq<AuthRepo.UserRow>)
    ensures |r| == |users|
    ensures forall i :: 0 <= i < |users| ==>
      r[i] == if SqlText(users[i].id) == fk then users[i].(isActive := false) else users[i]
  {
    seq(|users|, i requires 0 <= i < |users| =>
      if SqlText(users[i].id) == fk then users[i].(isActive := false) else users[i])
  }

  /** The row count of that UPDATE: every user it matched, active or not. */
  function MatchedUsers(users: seq<AuthRepo.UserRow>, fk: SqlValue): (n: nat)
    ensures n == 0 <==> forall i :: 0 <= i < |users| ==> SqlText(users[i].id) != fk
    decreases |users|
  {
    if users == [] then 0
    else
      assert forall i :: 1 <= i < |users| ==> users[i] == users[1..][i - 1];
      (if SqlText(users[0].id) == fk then 1 else 0) + MatchedUsers(users[1..], fk)
  }

  /** The server executing the soft delete: the subquery gives the `user_fk`
      of the one teacher with the id (NULL when there is none, an error when
      there are several), and every user with that id is deactivated. */
  function ExecSoftDelete(db: Db, params: seq<SqlValue>): (r: Result<(nat, Db)>)
    ensures r.Ok? ==> r.value.1.teachers == db.teachers && |r.value.1.users| == |db.users|
    ensures r.Ok? ==> forall i :: 0 <= i < |db.users| ==>
      r.value.1.users[i] == db.users[i] || r.value.1.users[i] == db.users[i].(isActive := false)
    ensures r.Ok? && r.value.0 == 0 ==> r.value.1 == db
  {
    match Resolve(Placeholder(1), params)
    case None => Err(UnboundParameter)
    case Some(idValue) =>
      var hits := if idValue.SqlText? then WithId(db.teachers, idValue.s) else [];
      if |hits| > 1 then Err(SubqueryRows)
      else
        var fk := if hits == [] then SqlNull else Column(hits[0], "user_fk");
        assert MatchedUsers(db.users, fk) == 0 ==> Deactivate(db.users, fk) == db.users;
        Ok((MatchedUsers(db.users, fk), Db(db.teachers, Deactivate(db.users, fk))))
  }

  /** The `softDelete` callback. */
  function SoftDeleteBody(db: Db, id: string): (o: Outcome<()>)
    ensures o.run.trace == [Exec(SoftDeleteSql, [SqlText(id)])]
    ensures o.run.result.Err? ==> o.db == db
    ensures o.run.result.Ok? ==> o.db.teachers == db.teachers && |o.db.users| == |db.users|
  {
    var ev := Exec(SoftDeleteSql, [SqlText(id)]);
    match ExecSoftDelete(db, [SqlText(id)])
    case Err(e) => Outcome(Run(Err(e), [ev]), db)
    case Ok((count, after)) =>
      if count == 0 then Outcome(Run(Err(SoftDeleteFailed), [ev]), db)
      else Outcome(Run(Ok(()), [ev]), after)
  }

  /** `softDelete`: deactivate the user behind the teacher, keep the teacher row. */
  function SoftDelete(db: Db, id: string): (o: Outcome<()>)
    ensures IsSession(o.run.trace)
    ensures o.run.trace == [Connect, Begin, Exec(SoftDeleteSql, [SqlText(id)]), if o.run.result.Ok? then Commit else Rollback, Release]
    ensures |WithId(db.teachers, id)| > 1 ==> o.run.result == Err(SubqueryRows)
    ensures |WithId(db.teachers, id)| == 0 ==> o.run.result == Err(SoftDeleteFailed)
    ensures o.run.result.Ok? <==>
      |WithId(db.teachers, id)| == 1 && exists i :: 0 <= i < |db.users| && Joins(WithId(db.teachers, id)[0], db.users[i])
    ensures o.run.result.Ok? ==>
      var t := WithId(db.teachers, id)[0];
      && o.db.teachers == db.teachers
      && |o.db.users| == |db.users|
      && forall i :: 0 <= i < |db.users| ==>
           o.db.users[i] == if Joins(t, db.users[i]) then db.users[i].(isActive := false) else db.users[i]
    ensures o.run.result.Err? ==> o.db == db
  {
    ResolvePlaceholder(1, [SqlText(id)]);
    var body := SoftDeleteBody(db, id);
    TransactionOfOne(body.run);
    Outcome(Transaction(body.run), if body.run.result.Ok? then body.db else db)
  }

  /** After a soft delete no user behind the teacher is active any more. */
  lemma SoftDeletedUserInactive(db: Db, id: string, u: AuthRepo.UserRow)
    requires SoftDelete(db, id).run.result.Ok?
    requires u in SoftDelete(db, id).db.users && Joins(WithId(db.teachers, id)[0], u)
    ensures !u.isActive
  {
    var after := SoftDelete(db, id).db;
    var i :| 0 <= i < |after.users| && after.users[i] == u;
    assert after.users[i].id == db.users[i].id;
  }

  /** The only row with the id is the one the soft delete looked at. */
  lemma OnlyRowWithId(db: Db, id: string, t: TeacherRow)
    requires |WithId(db.teachers, id)| == 1
    requires t in db.teachers && HasId(t, id)
    ensures t == WithId(db.teachers, id)[0]
  {
    var w := WithId(db.teachers, id);
    assert t in w;
    assert w == [w[0]];
  }

  /** After a soft delete `findById` no longer finds the teacher. */
  lemma SoftDeleteHidesFromFindById(db: Db, id: string)
    requires SoftDelete(db, id).run.result.Ok?
    ensures FindById(SoftDelete(db, id).db, id).result == Ok(None)
  {
    var after := SoftDelete(db, id).db;
    forall j | j in JoinedRows(after) ensures !(HasId(j.teacher, id) && j.user.isActive) {
      if HasId(j.teacher, id) {
        OnlyRowWithId(db, id, j.teacher);
        SoftDeletedUserInactive(db, id, j.user);
      }
    }
  }

  /** Nor does any page of `findAll` list it. */
  lemma SoftDeleteHidesFromFindAll(db: Db, id: string, options: FindAllOptions)
    requires SoftDelete(db, id).run.result.Ok?
    requires PagingAccepted(options)
    ensures FindAll(SoftDelete(db, id).db, options).result.Ok?
    ensures var data := FindAll(SoftDelete(db, id).db, options).result.value.data;
      forall i :: 0 <= i < |data| ==> !HasUuid(data[i], id)
  {
    var after := SoftDelete(db, id).db;
    FindAllPage(after, options);
    var data := FindAll(after, options).result.value.data;
    forall i | 0 <= i < |data| ensures !HasUuid(data[i], id) {
      HiddenAfterSoftDelete(db, id, data[i]);
    }
  }

  /** No teacher a read can show after a soft delete carries the id. */
  lemma HiddenAfterSoftDelete(db: Db, id: string, v: Teacher)
    requires SoftDelete(db, id).run.result.Ok?
    requires ShowsVisible(SoftDelete(db, id).db, v)
    ensures !HasUuid(v, id)
  {
    var after := SoftDelete(db, id).db;
    var t :| t in after.teachers && Visible(after, t) && v == Projected(t);
    if HasId(t, id) {
      OnlyRowWithId(db, id, t);
      var u :| u in after.users && u.isActive && Joins(t, u);
      SoftDeletedUserInactive(db, id, u);
    }
  }

  /** The teacher row stays, so a second soft delete finds the same user and
      succeeds again: the row count includes users already inactive. */
  lemma SoftDeleteRepeats(db: Db, id: string)
    requires SoftDelete(db, id).run.result.Ok?
    ensures SoftDelete(SoftDelete(db, id).db, id).run.result.Ok?
  {
    var after := SoftDelete(db, id).db;
    var t := WithId(db.teachers, id)[0];
    var i :| 0 <= i < |db.users| && Joins(t, db.users[i]);
    assert Joins(t, after.users[i]);
  }
}
