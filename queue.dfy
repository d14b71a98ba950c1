/** The task table as the workforce (pkg/worker/worker.go) sees it: the
    bulk updates and the query it issues, as functions from the rows
    before to the rows after. The table is a sequence of rows in storage
    order. */
module Queue {
  import opened Wrappers
  import opened Schema
  import Pid

  /** `Limit(10)` of the fetcher's query. */
  const ClaimLimit: nat := 10

  /** The `Unique()` constraint on `id`. */
  predicate UniqueIds(table: seq<Task>)
  {
    forall i, j :: 0 <= i < |table| && 0 <= j < |table| && table[i].id == table[j].id ==> i == j
  }

  function CountStatus(table: seq<Task>, s: Status): (n: nat)
    ensures n <= |table|
  {
    if table == [] then 0
    else (if table[0].status == s then 1 else 0) + CountStatus(table[1..], s)
  }

  // ------------------------------------------------------------ recovery

  /** `Task.Update().SetStatus(pending).Where(status == working)`: every
      row in `working` goes back to `pending`, every other row is left as
      it is. */
  function Recover(table: seq<Task>, now: int): (r: seq<Task>)
    ensures |r| == |table|
    ensures forall i :: 0 <= i < |table| ==> SameTask(table[i], r[i]) && r[i].error == table[i].error
    ensures forall i :: 0 <= i < |table| ==> r[i].status != Working
    ensures forall i :: 0 <= i < |table| && table[i].status == Working ==>
      r[i].status == Pending && r[i].updatedAt == now
    ensures forall i :: 0 <= i < |table| && table[i].status != Working ==> r[i] == table[i]
  {
    seq(|table|, i requires 0 <= i < |table| =>
      if table[i].status == Working then SetStatus(table[i], Pending, now) else table[i])
  }

  /** The count `Save` reports is the number of rows it moved, none is left
      in `working`, and the pending rows grow by exactly that number. */
  lemma {:induction false} RecoverCount(table: seq<Task>, now: int)
    ensures CountStatus(Recover(table, now), Working) == 0
    ensures CountStatus(Recover(table, now), Pending)
      == CountStatus(table, Pending) + CountStatus(table, Working)
    ensures forall s :: s != Pending && s != Working ==>
      CountStatus(Recover(table, now), s) == CountStatus(table, s)
  {
    if table != [] {
      RecoverCount(table[1..], now);
      assert Recover(table, now)[1..] == Recover(table[1..], now);
    }
  }

  /** A second recovery matches no row and changes nothing. */
  lemma RecoverIdempotent(table: seq<Task>, now: int, later: int)
    ensures Recover(Recover(table, now), later) == Recover(table, now)
  {
  }

  // --------------------------------------------------------------- claim

  /** The rows with status `pending`, in storage order. */
  function PendingRows(table: seq<Task>): (r: seq<Task>)
    ensures |r| == CountStatus(table, Pending)
    ensures forall t :: t in r <==> t in table && t.status == Pending
  {
    if table == [] then []
    else (if table[0].status == Pending then [table[0]] else []) + PendingRows(table[1..])
  }

  predicate SortedByCreated(s: seq<Task>)
  {
    forall i, j :: 0 <= i < j < |s| ==> s[i].createdAt <= s[j].createdAt
  }

  /** Place `t` before the first row of `s` that is not older. */
  function InsertByCreated(t: Task, s: seq<Task>): (r: seq<Task>)
    ensures |r| == |s| + 1
    ensures multiset(r) == multiset(s) + multiset{t}
    ensures forall u :: u in r <==> u == t || u in s
    ensures SortedByCreated(s) ==> SortedByCreated(r)
  {
    if s == [] || t.createdAt <= s[0].createdAt then [t] + s
    else
      var rest := InsertByCreated(t, s[1..]);
      ConsInsert(t, s, rest);
      [s[0]] + rest
  }

  /** Putting the head back in front of the insertion into the tail gives
      the insertion into the whole sequence. */
  lemma ConsInsert(t: Task, s: seq<Task>, rest: seq<Task>)
    requires s != [] && s[0].createdAt < t.createdAt
    requires multiset(rest) == multiset(s[1..]) + multiset{t}
    requires forall u :: u in rest <==> u == t || u in s[1..]
    requires SortedByCreated(s[1..]) ==> SortedByCreated(rest)
    ensures multiset([s[0]] + rest) == multiset(s) + multiset{t}
    ensures forall u :: u in [s[0]] + rest <==> u == t || u in s
    ensures SortedByCreated(s) ==> SortedByCreated([s[0]] + rest)
  {
    assert s == [s[0]] + s[1..];
    if SortedByCreated(s) {
      ConsSorted(s, rest);
    }
  }

  /** The head of a sorted sequence can go in front of any sorted
      arrangement of its tail's rows. */
  lemma ConsSorted(s: seq<Task>, rest: seq<Task>)
    requires s != [] && SortedByCreated(s) && SortedByCreated(rest)
    requires forall u :: u in rest ==> u in s[1..] || s[0].createdAt <= u.createdAt
    ensures SortedByCreated([s[0]] + rest)
  {
    NotOlderThanHead(s);
    assert forall k :: 0 <= k < |rest| ==> rest[k] in rest;
  }

  /** In a sorted sequence no row is older than the head. */
  lemma NotOlderThanHead(s: seq<Task>)
    requires s != []
    ensures SortedByCreated(s) ==> forall u :: u in s[1..] ==> s[0].createdAt <= u.createdAt
  {
  }

  /** `Order(ent.Asc(created_at))`; rows created in the same millisecond
      keep their storage order. */
  function SortByCreated(s: seq<Task>): (r: seq<Task>)
    ensures |r| == |s|
    ensures multiset(r) == multiset(s)
    ensures forall u :: u in r <==> u in s
    ensures SortedByCreated(r)
  {
    if s == [] then []
    else
      assert s == [s[0]] + s[1..];
      InsertByCreated(s[0], SortByCreated(s[1..]))
  }

  lemma {:induction false} InsertUnique(t: Task, s: seq<Task>)
    requires UniqueIds(s) && forall u :: u in s ==> u.id != t.id
    ensures UniqueIds(InsertByCreated(t, s))
  {
    if s != [] && t.createdAt > s[0].createdAt {
      InsertUnique(t, s[1..]);
      var r := InsertByCreated(t, s[1..]);
      forall i | 0 <= i < |r| ensures r[i].id != s[0].id {
        assert r[i] in r;
        if r[i] != t {
          var j :| 0 <= j < |s[1..]| && s[1..][j] == r[i];
          assert s[j + 1] == r[i];
        }
      }
    }
  }

  lemma {:induction false} SortUnique(s: seq<Task>)
    requires UniqueIds(s)
    ensures UniqueIds(SortByCreated(s))
  {
    if s != [] {
      assert UniqueIds(s[1..]) by {
        forall i, j | 0 <= i < |s[1..]| && 0 <= j < |s[1..]| && s[1..][i].id == s[1..][j].id
          ensures i == j
        {
          assert s[i + 1].id == s[j + 1].id;
        }
      }
      SortUnique(s[1..]);
      forall u | u in SortByCreated(s[1..]) ensures u.id != s[0].id {
        var j :| 0 <= j < |s[1..]| && s[1..][j] == u;
        assert s[j + 1] == u;
      }
      InsertUnique(s[0], SortByCreated(s[1..]));
    }
  }

  lemma {:induction false} PendingRowsUnique(table: seq<Task>)
    requires UniqueIds(table)
    ensures UniqueIds(PendingRows(table))
  {
    if table != [] {
      assert UniqueIds(table[1..]) by {
        forall i, j | 0 <= i < |table[1..]| && 0 <= j < |table[1..]| && table[1..][i].id == table[1..][j].id
          ensures i == j
        {
          assert table[i + 1].id == table[j + 1].id;
        }
      }
      PendingRowsUnique(table[1..]);
      var rest := PendingRows(table[1..]);
      if table[0].status == Pending {
        forall i | 0 <= i < |rest| ensures rest[i].id != table[0].id {
          assert rest[i] in rest;
          var j :| 0 <= j < |table[1..]| && table[1..][j] == rest[i];
          assert table[j + 1] == rest[i];
        }
        assert PendingRows(table) == [table[0]] + rest;
      }
    }
  }

  function Min(a: nat, b: nat): nat
  {
    if a < b then a else b
  }

  /** The fetcher's query: pending rows, oldest `created_at` first, at most
      ten. */
  function OldestPending(table: seq<Task>): (sel: seq<Task>)
    ensures |sel| == Min(ClaimLimit, CountStatus(table, Pending))
  {
    var sorted := SortByCreated(PendingRows(table));
    sorted[..Min(ClaimLimit, |sorted|)]
  }

  /** A prefix of a sorted sequence is sorted, keeps unique ids, and
      nothing after it is older than anything in it. */
  lemma PrefixOfSorted(s: seq<Task>, k: nat)
    requires k <= |s| && SortedByCreated(s)
    ensures SortedByCreated(s[..k])
    ensures UniqueIds(s) ==> UniqueIds(s[..k])
    ensures forall u, v :: u in s && u !in s[..k] && v in s[..k] ==> v.createdAt <= u.createdAt
  {
    var p := s[..k];
    if UniqueIds(s) {
      forall a, b | 0 <= a < |p| && 0 <= b < |p| && p[a].id == p[b].id ensures a == b {
        assert s[a] == p[a] && s[b] == p[b];
      }
    }
    assert forall j :: 0 <= j < k ==> p[j] == s[j];
    forall u, v | u in s && u !in p && v in p ensures v.createdAt <= u.createdAt {
      var m :| 0 <= m < |s| && s[m] == u;
      var n :| 0 <= n < |p| && p[n] == v;
      assert s[n] == v;
      assert k <= m;
    }
  }

  /** What the query promises: rows of the table that are pending, no row
      twice, oldest first, and no pending row left out that is older than
      one selected. */
  lemma OldestPendingSelects(table: seq<Task>)
    ensures forall t :: t in OldestPending(table) ==> t in table && t.status == Pending
    ensures SortedByCreated(OldestPending(table))
    ensures UniqueIds(table) ==> UniqueIds(OldestPending(table))
    ensures forall t, s ::
      (t in table && t.status == Pending && t !in OldestPending(table) && s in OldestPending(table))
      ==> s.createdAt <= t.createdAt
  {
    var sorted := SortByCreated(PendingRows(table));
    var sel := OldestPending(table);
    var k := Min(ClaimLimit, |sorted|);
    assert sel == sorted[..k];
    PrefixOfSorted(sorted, k);
    forall t | t in sel ensures t in sorted {
      var n :| 0 <= n < |sel| && sel[n] == t;
      assert sorted[n] == t;
    }
    if UniqueIds(table) {
      PendingRowsUnique(table);
      SortUnique(PendingRows(table));
    }
  }

  /** The ids of the selected rows. */
  function IdSet(sel: seq<Task>): set<Pid.ID>
  {
    set t | t in sel :: t.id
  }

  /** `Task.Update().Where(IDIn(ids...)).SetStatus(working)`. */
  function MarkWorking(table: seq<Task>, ids: set<Pid.ID>, now: int): (r: seq<Task>)
    ensures |r| == |table|
    ensures forall i :: 0 <= i < |table| ==> SameTask(table[i], r[i]) && r[i].error == table[i].error
    ensures forall i :: 0 <= i < |table| && table[i].id in ids ==>
      r[i].status == Working && r[i].updatedAt == now
    ensures forall i :: 0 <= i < |table| && table[i].id !in ids ==> r[i] == table[i]
  {
    seq(|table|, i requires 0 <= i < |table| =>
      if table[i].id in ids then SetStatus(table[i], Working, now) else table[i])
  }

  /** A claim moves exactly the selected rows from `pending` to `working`
      and leaves every other row untouched. */
  lemma ClaimMarksSelected(table: seq<Task>, now: int)
    requires UniqueIds(table)
    ensures var sel := OldestPending(table);
      var r := MarkWorking(table, IdSet(sel), now);
      forall i :: 0 <= i < |table| ==>
        (table[i] in sel ==> table[i].status == Pending && r[i].status == Working)
        && (table[i] !in sel ==> r[i] == table[i])
  {
    var sel := OldestPending(table);
    OldestPendingSelects(table);
    forall i | 0 <= i < |table| && table[i] !in sel
      ensures table[i].id !in IdSet(sel)
    {

    }
  }

  // ------------------------------------------------------------ finishing

  /** `UpdateOne(t)` of the worker: the row with `t`'s id gets the new
      status (and the error message, when one is given); it fails, changing
      nothing, when no row has that id. */
  function UpdateOne(table: seq<Task>, id: Pid.ID, s: Status, msg: Option<string>, now: int)
    : (r: Result<seq<Task>>)
    ensures r.Ok? <==> exists i :: 0 <= i < |table| && table[i].id == id
    ensures r.Ok? ==> |r.value| == |table|
    ensures r.Ok? ==> forall i :: 0 <= i < |table| ==> SameTask(table[i], r.value[i])
    ensures r.Ok? ==> forall i :: 0 <= i < |table| && table[i].id == id ==>
      r.value[i].status == s && r.value[i].updatedAt == now
      && r.value[i].error == (if msg.Some? then msg else table[i].error)
    ensures r.Ok? ==> forall i :: 0 <= i < |table| && table[i].id != id ==> r.value[i] == table[i]
  {
    if exists i :: 0 <= i < |table| && table[i].id == id then
      Ok(seq(|table|, i requires 0 <= i < |table| =>
        if table[i].id != id then table[i]
        else table[i].(status := s, error := if msg.Some? then msg else table[i].error, updatedAt := now)))
    else Err("ent: task not found")
  }

  // ---------------------------------------------------------- transitions

  /** The status changes the workforce performs: recovery, claim, done and
      error. */
  predicate Transition(a: Status, b: Status)
    ensures Transition(a, b) && (a == Done || a == Error) ==> b == a
    ensures Transition(a, b) && b == Pending ==> a == Pending || a == Working
  {
    a == b || (a == Working && b == Pending) || (a == Pending && b == Working)
    || (a == Working && b == Done) || (a == Working && b == Error)
  }

  /** Recovery and a claim only ever move a row along `Transition`. */
  lemma TableStepsAreTransitions(table: seq<Task>, now: int)
    requires UniqueIds(table)
    ensures forall i :: 0 <= i < |table| ==> Transition(table[i].status, Recover(table, now)[i].status)
    ensures var r := MarkWorking(table, IdSet(OldestPending(table)), now);
      forall i :: 0 <= i < |table| ==> Transition(table[i].status, r[i].status)
  {
    ClaimMarksSelected(table, now);
  }

  /** No update touches ids, so the uniqueness of ids is kept. */
  lemma UpdatesKeepUniqueIds(table: seq<Task>, ids: set<Pid.ID>, id: Pid.ID, s: Status, msg: Option<string>, now: int)
    requires UniqueIds(table)
    ensures UniqueIds(Recover(table, now))
    ensures UniqueIds(MarkWorking(table, ids, now))
    ensures UpdateOne(table, id, s, msg, now).Ok? ==> UniqueIds(UpdateOne(table, id, s, msg, now).value)
  {
  }
}
