/** The life of one pooled database connection, as a trace of the events
    the repositories cause: acquiring it, the statements sent on it, and
    releasing it. `withClient` and `transaction` of the teacher repository,
    and the try/finally blocks of the auth repository, all produce such traces. */
module Connections {
  import opened Results
  import opened Sql

  datatype Event =
    | Connect
    | Begin
    | Commit
    | Rollback
    | Exec(sql: string, params: seq<SqlValue>)
    | Release

  /** What an operation returned, with the events it caused. */
  datatype Run<T> = Run(result: Result<T>, trace: seq<Event>)

  datatype ConnState = Idle | Open | InTransaction | Released

  /** The connection protocol: statements only on an acquired connection,
      `COMMIT`/`ROLLBACK` only inside a transaction, release only outside one,
      and nothing after release. */
  function Step(st: ConnState, e: Event): Option<ConnState> {
    match (st, e)
    case (Idle, Connect) => Some(Open)
    case (Open, Begin) => Some(InTransaction)
    case (Open, Exec(_, _)) => Some(Open)
    case (InTransaction, Exec(_, _)) => Some(InTransaction)
    case (InTransaction, Commit) => Some(Open)
    case (InTransaction, Rollback) => Some(Open)
    case (Open, Release) => Some(Released)
    case _ => None
  }

  function Replay(st: ConnState, trace: seq<Event>): Option<ConnState>
    decreases |trace|
  {
    if trace == [] then Some(st)
    else match Step(st, trace[0])
      case None => None
      case Some(next) => Replay(next, trace[1..])
  }

  /** A complete, protocol-respecting use of one connection. */
  predicate IsSession(trace: seq<Event>) {
    Replay(Idle, trace) == Some(Released)
  }

  /** Events a callback may cause on a borrowed connection: statements only. */
  predicate OnlyStatements(events: seq<Event>) {
    forall i :: 0 <= i < |events| ==> events[i].Exec?
  }

  function Occurrences(e: Event, trace: seq<Event>): nat
    decreases |trace|
  {
    if trace == [] then 0 else (if trace[0] == e then 1 else 0) + Occurrences(e, trace[1..])
  }

  lemma {:induction false} StatementsKeepState(st: ConnState, events: seq<Event>, rest: seq<Event>)
    requires st == Open || st == InTransaction
    requires OnlyStatements(events)
    ensures Replay(st, events + rest) == Replay(st, rest)
    decreases |events|
  {
    if events != [] {
      assert Step(st, events[0]) == Some(st);
      assert (events + rest)[0] == events[0];
      assert (events + rest)[1..] == events[1..] + rest;
      assert OnlyStatements(events[1..]) by {
        forall i | 0 <= i < |events[1..]| ensures events[1..][i].Exec? {
          assert events[1..][i] == events[i + 1];
        }
      }
      StatementsKeepState(st, events[1..], rest);
    } else {
      assert events + rest == rest;
    }
  }

  lemma {:induction false} LiveReplayEndsWithOneRelease(st: ConnState, trace: seq<Event>)
    requires st != Released && st != Idle
    requires Replay(st, trace) == Some(Released)
    ensures |trace| >= 1 && trace[|trace| - 1] == Release
    ensures Occurrences(Release, trace) == 1 && Occurrences(Connect, trace) == 0
    decreases |trace|
  {
    var next := Step(st, trace[0]).value;
    if next == Released {
      assert trace[0] == Release;
      ReleasedIsFinal(trace[1..]);
      assert trace == [Release];
    } else {
      LiveReplayEndsWithOneRelease(next, trace[1..]);
      assert trace[|trace| - 1] == trace[1..][|trace[1..]| - 1];
    }
  }

  /** Nothing may happen on a released connection. */
  lemma ReleasedIsFinal(trace: seq<Event>)
    ensures Replay(Released, trace) == Some(Released) <==> trace == []
  {
    if trace != [] {
      assert Step(Released, trace[0]).None?;
    }
  }

  /** A session acquires its connection first and releases it exactly once, last. */
  lemma SessionReleasesOnce(trace: seq<Event>)
    requires IsSession(trace)
    ensures |trace| >= 2 && trace[0] == Connect && trace[|trace| - 1] == Release
    ensures Occurrences(Connect, trace) == 1 && Occurrences(Release, trace) == 1
  {
    assert trace != [];
    assert trace[0] == Connect;
    LiveReplayEndsWithOneRelease(Open, trace[1..]);
    assert trace[|trace| - 1] == trace[1..][|trace[1..]| - 1];
  }

  /** `withClient`: acquire a connection, run the callback, release the
      connection on every path; the callback's value or error comes out unchanged. */
  function WithClient<T>(body: Run<T>): (r: Run<T>)
    requires OnlyStatements(body.trace)
    ensures r.result == body.result
    ensures IsSession(r.trace)
    ensures r.trace == [Connect] + body.trace + [Release]
  {
    StatementsKeepState(Open, body.trace, [Release]);
    var trace := [Connect] + body.trace + [Release];
    assert trace[1..] == body.trace + [Release];
    assert trace[1..|trace| - 1] == body.trace;
    Run(body.result, trace)
  }

  /** `transaction`: acquire, `BEGIN`, run the callback, then `COMMIT` if it
      succeeded or `ROLLBACK` if it threw, and release on every path; the
      callback's value or error comes out unchanged. */
  function Transaction<T>(body: Run<T>): (r: Run<T>)
    requires OnlyStatements(body.trace)
    ensures r.result == body.result
    ensures IsSession(r.trace)
    ensures |r.trace| == |body.trace| + 4
    ensures r.trace[..2] == [Connect, Begin] && r.trace[2..|r.trace| - 2] == body.trace
    ensures r.trace[|r.trace| - 2] == (if body.result.Ok? then Commit else Rollback)
  {
    var finish: Event := if body.result.Ok? then Commit else Rollback;
    StatementsKeepState(InTransaction, body.trace, [finish, Release]);
    var trace := [Connect, Begin] + body.trace + [finish, Release];
    assert trace[2..|trace| - 2] == body.trace;
    TransactionFinishes(finish);
    TransactionOpens(body.trace + [finish, Release]);
    assert trace == [Connect, Begin] + (body.trace + [finish, Release]);
    Run(body.result, trace)
  }

  /** Connecting and beginning puts the connection in a transaction. */
  lemma TransactionOpens(rest: seq<Event>)
    ensures Replay(Idle, [Connect, Begin] + rest) == Replay(InTransaction, rest)
  {
    var trace := [Connect, Begin] + rest;
    assert trace[1..][1..] == rest;
  }

  /** Committing or rolling back, then releasing, ends the session. */
  lemma TransactionFinishes(finish: Event)
    requires finish == Commit || finish == Rollback
    ensures Replay(InTransaction, [finish, Release]) == Some(Released)
  {
    assert Replay(Open, [Release]) == Some(Released);
    assert [finish, Release][1..] == [Release];
  }

  /** A transaction around a single statement, spelled out. */
  lemma TransactionOfOne<T>(body: Run<T>)
    requires |body.trace| == 1 && body.trace[0].Exec?
    ensures Transaction(body).trace
         == [Connect, Begin, body.trace[0], if body.result.Ok? then Commit else Rollback, Release]
  {
    var t := Transaction(body).trace;
    assert t[2..3] == body.trace;
    assert t[2] == body.trace[0];
    assert t[..2] == [Connect, Begin];
    assert t[0] == Connect && t[1] == Begin;
  }

  /** A transaction whose callback threw before sending anything. */
  lemma TransactionOfNone<T>(body: Run<T>)
    requires body.trace == [] && body.result.Err?
    ensures Transaction(body).trace == [Connect, Begin, Rollback, Release]
  {
    var t := Transaction(body).trace;
    assert t[..2] == [Connect, Begin];
    assert t[0] == Connect && t[1] == Begin;
  }

  /** In a transaction's trace exactly one of `COMMIT` and `ROLLBACK` appears:
      `COMMIT` exactly when the callback succeeded. */
  lemma {:induction false} TransactionEndsOnce<T>(body: Run<T>)
    requires OnlyStatements(body.trace)
    ensures Occurrences(Commit, Transaction(body).trace) == (if body.result.Ok? then 1 else 0)
    ensures Occurrences(Rollback, Transaction(body).trace) == (if body.result.Ok? then 0 else 1)
    ensures Occurrences(Release, Transaction(body).trace) == 1
  {
    var finish: Event := if body.result.Ok? then Commit else Rollback;
    ControlInTransaction(body, Commit);
    ControlInTransaction(body, Rollback);
    ControlInTransaction(body, Release);
    EndCounts(finish);
  }

  /** A control event occurs in a transaction only where the transaction itself puts it. */
  lemma ControlInTransaction<T>(body: Run<T>, e: Event)
    requires OnlyStatements(body.trace) && !e.Exec?
    ensures Occurrences(e, Transaction(body).trace)
         == Occurrences(e, [Connect, Begin]) + Occurrences(e, [if body.result.Ok? then Commit else Rollback, Release])
  {
    var finish: Event := if body.result.Ok? then Commit else Rollback;
    assert Transaction(body).trace == [Connect, Begin] + body.trace + [finish, Release];
    OccurrencesSplit(e, [Connect, Begin], body.trace, [finish, Release]);
    NoControlInStatements(e, body.trace);
  }

  /** The counts of the ending events in the opening and the closing events. */
  lemma EndCounts(finish: Event)
    requires finish == Commit || finish == Rollback
    ensures Occurrences(Commit, [Connect, Begin]) == 0 && Occurrences(Rollback, [Connect, Begin]) == 0
    ensures Occurrences(Release, [Connect, Begin]) == 0
    ensures Occurrences(Commit, [finish, Release]) == (if finish == Commit then 1 else 0)
    ensures Occurrences(Rollback, [finish, Release]) == (if finish == Rollback then 1 else 0)
    ensures Occurrences(Release, [finish, Release]) == 1
  {
    assert [finish, Release][1..] == [Release];
    assert [Connect, Begin][1..] == [Begin];
    assert [Begin][1..] == [] && [Release][1..] == [];
  }

  lemma {:induction false} OccurrencesAppend(e: Event, a: seq<Event>, b: seq<Event>)
    ensures Occurrences(e, a + b) == Occurrences(e, a) + Occurrences(e, b)
    decreases |a|
  {
    if a != [] {
      assert (a + b)[1..] == a[1..] + b;
      OccurrencesAppend(e, a[1..], b);
    } else {
      assert a + b == b;
    }
  }

  lemma OccurrencesSplit(e: Event, a: seq<Event>, b: seq<Event>, c: seq<Event>)
    ensures Occurrences(e, a + b + c) == Occurrences(e, a) + Occurrences(e, b) + Occurrences(e, c)
  {
    OccurrencesAppend(e, a + b, c);
    OccurrencesAppend(e, a, b);
  }

  lemma {:induction false} NoControlInStatements(e: Event, events: seq<Event>)
    requires !e.Exec?
    requires OnlyStatements(events)
    ensures Occurrences(e, events) == 0
    decreases |events|
  {
    if events != [] {
      assert OnlyStatements(events[1..]) by {
        forall i | 0 <= i < |events[1..]| ensures events[1..][i].Exec? {
          assert events[1..][i] == events[i + 1];
        }
      }
      NoControlInStatements(e, events[1..]);
    }
  }
}
