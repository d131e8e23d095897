/**
  The task table and the bucketed sorted sets that index it by minute: writer, reader, the
  database fallback, and how their answers relate.
 */
module TaskIndex {
  import opened Clock
  import opened Keys
  import opened Wrappers
  import T = TriggerWork
  import W = Windows

  // ---- The table ----

  datatype Status = NotRunned | Running | Successed | Failed {
    predicate Finished() {
      Successed? || Failed?
    }
  }

  datatype Row = Row(taskId: nat, app: string, timer: int, run: int, status: Status,
                     output: string, costTime: int, diffTime: int)
  {
    function Key(): Task {
      Task(timer, run)
    }

    /** gorm writes the fields of a struct that are not zero and leaves the others. */
    function UpdatedBy(g: Row): Row {
      Row(if g.taskId == 0 then taskId else g.taskId,
          if g.app == "" then app else g.app,
          if g.timer == 0 then timer else g.timer,
          if g.run == 0 then run else g.run,
          if g.status == NotRunned then status else g.status,
          if g.output == "" then output else g.output,
          if g.costTime == 0 then costTime else g.costTime,
          if g.diffTime == 0 then diffTime else g.diffTime)
    }
  }

  predicate Unique(rows: seq<Row>) {
    forall i, j | 0 <= i < j < |rows| :: rows[i].Key() != rows[j].Key() && rows[i].taskId != rows[j].taskId
  }

  function KeysOf(rows: seq<Row>): set<Task> {
    set r | r in rows :: r.Key()
  }

  /** The old rows stay as they are; the new ones wait to be run. */
  predicate Grown(app: string, rows: seq<Row>, rows': seq<Row>) {
    rows <= rows' && forall i | |rows| <= i < |rows'| :: rows'[i].app == app && Waiting(rows'[i])
  }

  /** Not run yet, and without a result. */
  predicate Waiting(row: Row) {
    row.status == NotRunned && row.output == "" && row.costTime == 0 && row.diffTime == 0
  }

  function Elements(xs: seq<Task>): set<Task> {
    set x | x in xs
  }

  lemma ElementsOfMore(xs: seq<Task>, i: nat)
    requires i < |xs|
    ensures Elements(xs[..i + 1]) == Elements(xs[..i]) + {xs[i]}
  {
    assert xs[..i + 1] == xs[..i] + [xs[i]];
  }

  lemma KeysOfMore(rows: seq<Row>, row: Row)
    ensures KeysOf(rows + [row]) == KeysOf(rows) + {row.Key()}
  {
    assert forall r :: r in rows + [row] <==> r in rows || r == row;
  }

  function NewRow(id: nat, app: string, x: Task): Row {
    Row(id, app, x.timer, x.run, NotRunned, "", 0, 0)
  }

  class TaskTable {
    var rows: seq<Row>
    var nextId: nat

    ghost predicate Valid()
      reads this
    {
      Unique(rows) && 0 < nextId && forall r | r in rows :: 0 < r.taskId < nextId
    }

    constructor ()
      ensures Valid() && rows == []
    {
      rows, nextId := [], 1;
    }

    /** None is an error: the query fails, or there is no such row. */
    method Find(x: Task, fails: bool) returns (row: Option<Row>)
      ensures row.None? <==> fails || x !in KeysOf(rows)
      ensures row.Some? ==> row.value in rows && row.value.Key() == x
    {
      if fails {
        return None;
      }
      for i := 0 to |rows|
        invariant forall j | 0 <= j < i :: rows[j].Key() != x
      {
        if rows[i].Key() == x {
          return Some(rows[i]);
        }
      }
      return None;
    }

    method InsertOrIgnore(app: string, x: Task)
      requires Valid()
      modifies this
      ensures Valid() && KeysOf(rows) == KeysOf(old(rows)) + {x}
      ensures x in KeysOf(old(rows)) ==> rows == old(rows)
      ensures x !in KeysOf(old(rows)) ==>
                && |rows| == |old(rows)| + 1 && rows[..|old(rows)|] == old(rows)
                && var row := rows[|old(rows)|];
                   row.Key() == x && row.app == app && row.taskId == old(nextId) && Waiting(row)
    {
      var present := Find(x, false);
      if present.None? {
        var row := NewRow(nextId, app, x);
        assert forall r | r in rows :: r.Key() in KeysOf(rows);
        KeysOfMore(rows, row);
        rows := rows + [row];
      }
      nextId := nextId + 1;
    }

    /**
      Insert-or-ignore, in one statement that takes effect as a whole or, on error, not at
      all.  Rows already there stay as they are; nothing is inserted twice.
     */
    method BatchSave(app: string, tasks: seq<Task>, fails: bool) returns (ok: bool)
      requires Valid()
      modifies this
      ensures ok == !fails
      ensures Valid() && Grown(app, old(rows), rows)
      ensures KeysOf(rows) == KeysOf(old(rows)) + if ok then Elements(tasks) else {}
    {
      if fails {
        return false;
      }
      for i := 0 to |tasks|
        invariant Valid() && Grown(app, old(rows), rows)
        invariant KeysOf(rows) == KeysOf(old(rows)) + Elements(tasks[..i])
      {
        ElementsOfMore(tasks, i);
        InsertOrIgnore(app, tasks[i]);
      }
      assert tasks[..|tasks|] == tasks;
      ok := true;
    }

    /** The rows with g's id take g's non-zero fields. */
    method Update(g: Row, fails: bool) returns (ok: bool)
      modifies this`rows
      ensures ok == !fails
      ensures |rows| == |old(rows)|
      ensures forall i | 0 <= i < |rows| ::
                rows[i] == if ok && old(rows)[i].taskId == g.taskId then old(rows)[i].UpdatedBy(g) else old(rows)[i]
    {
      ok := !fails;
      if ok {
        rows := seq(|rows|, i requires 0 <= i < |rows| reads this =>
                    if rows[i].taskId == g.taskId then rows[i].UpdatedBy(g) else rows[i]);
      }
    }

    /** Both ends of the range are included. */
    method GetTasksByTimeRange(start: int, end: int, status: Status, fails: bool) returns (found: Option<seq<Row>>)
      requires Valid()
      ensures found.None? <==> fails
      ensures found.Some? ==> forall r :: r in found.value <==> r in rows && start <= r.run <= end && r.status == status
      ensures found.Some? ==> Unique(found.value)
    {
      if fails {
        return None;
      }
      var out: seq<Row> := [];
      for i := 0 to |rows|
        invariant Unique(out)
        invariant forall r :: r in out <==> r in rows[..i] && start <= r.run <= end && r.status == status
      {
        assert rows[..i + 1] == rows[..i] + [rows[i]];
        if start <= rows[i].run <= end && rows[i].status == status {
          out := out + [rows[i]];
        }
      }
      assert rows[..|rows|] == rows;
      found := Some(out);
    }
  }

  // ---- The sorted sets ----

  type SortedSet = map<string, int>    // member -> score

  function TableName(x: Task, buckets: nat): string
    requires buckets > 0
  {
    GetTableName(x.timer, x.run, buckets)
  }

  function MemberOf(x: Task): string {
    Member(x.timer, x.run)
  }

  /** The reader drops the error of a malformed member. */
  function DecodeMember(m: string): Task {
    match SplitTimerIDUnix(m)
    case None => Task(0, 0)
    case Some((timer, run)) => Task(timer, run)
  }

  /** What the reader makes of a task's member. */
  function Decoded(x: Task): Task {
    Task(if x.timer < 0 then MAX_INT64 else x.timer, x.run)
  }

  predicate Scored(tables: map<string, SortedSet>, name: string, m: string, score: int) {
    name in tables && m in tables[name] && tables[name][m] == score
  }

  /** The sorted sets after ZADD. */
  function WithMember(tables: map<string, SortedSet>, name: string, m: string, score: int): map<string, SortedSet> {
    tables[name := (if name in tables then tables[name] else map[])[m := score]]
  }

  /** The sorted sets hold exactly the given tasks, each in its own table under its run time. */
  ghost predicate Holds(tables: map<string, SortedSet>, tasks: set<Task>, buckets: nat)
    requires buckets > 0
  {
    && (forall x | x in tasks :: x.Fits())
    && (forall x | x in tasks :: Scored(tables, TableName(x, buckets), MemberOf(x), x.run))
    && (forall name, m | name in tables && m in tables[name] ::
          exists x :: x in tasks && TableName(x, buckets) == name && MemberOf(x) == m)
  }

  lemma ZAddScores(tables: map<string, SortedSet>, name: string, m: string, score: int)
    ensures forall n, k, v :: Scored(WithMember(tables, name, m, score), n, k, v)
                         <==> if n == name && k == m then v == score else Scored(tables, n, k, v)
  {
  }

  lemma AddKeepsHolds(tables: map<string, SortedSet>, tasks: set<Task>, buckets: nat, x: Task)
    requires buckets > 0 && Holds(tables, tasks, buckets) && x.Fits()
    ensures Holds(WithMember(tables, TableName(x, buckets), MemberOf(x), x.run), tasks + {x}, buckets)
  {
    var name, m := TableName(x, buckets), MemberOf(x);
    var tables' := WithMember(tables, name, m, x.run);
    ZAddScores(tables, name, m, x.run);
    forall y | y in tasks + {x}
      ensures Scored(tables', TableName(y, buckets), MemberOf(y), y.run)
    {
      if MemberOf(y) == m {
        MembersInjective(y.timer, y.run, x.timer, x.run);
      }
    }
    forall n, k | n in tables' && k in tables'[n]
      ensures exists y :: y in tasks + {x} && TableName(y, buckets) == n && MemberOf(y) == k
    {
      if n == name && k == m {
        assert x in tasks + {x};
      } else {
        var y :| y in tasks && TableName(y, buckets) == n && MemberOf(y) == k;
        assert y in tasks + {x};
      }
    }
  }

  /** The answer the cache should give for a window of a slice. */
  function CacheAnswer(tasks: set<Task>, buckets: nat, key: string, start: int, end: int): set<Task>
    requires buckets > 0
  {
    set x | x in tasks && TableName(x, buckets) == key && start <= x.run < end
  }

  /**
    The first n commands of a pipeline that are carried out: all of them, or on an error those
    it leaves, which need not be the first ones.
   */
  function Sent(xs: seq<Task>, n: nat, fault: Option<set<nat>>): set<Task>
    requires n <= |xs|
  {
    set i: nat | i < n && (fault.None? || i in fault.value) :: xs[i]
  }

  lemma SentMore(xs: seq<Task>, n: nat, fault: Option<set<nat>>)
    requires n < |xs|
    ensures Sent(xs, n + 1, fault) == Sent(xs, n, fault) + if fault.None? || n in fault.value then {xs[n]} else {}
  {
  }

  lemma SentAll(xs: seq<Task>)
    ensures Sent(xs, |xs|, None) == Elements(xs)
  {
    forall x
      ensures x in Sent(xs, |xs|, None) <==> x in Elements(xs)
    {
      if x in xs {
        var i :| 0 <= i < |xs| && xs[i] == x;
      }
    }
  }

  class TaskCache {
    const buckets: nat
    var tables: map<string, SortedSet>
    ghost var tasks: set<Task>

    ghost predicate Valid()
      reads this
    {
      buckets > 0 && Holds(tables, tasks, buckets)
    }

    constructor (buckets: nat)
      requires buckets > 0
      ensures Valid() && tasks == {} && this.buckets == buckets
    {
      this.buckets, tables, tasks := buckets, map[], {};
    }

    /** One ZADD: a member that is there keeps its place. */
    method Add(x: Task)
      requires Valid() && x.Fits()
      modifies this
      ensures Valid() && tasks == old(tasks) + {x}
    {
      var name, m := TableName(x, buckets), MemberOf(x);
      AddKeepsHolds(tables, tasks, buckets, x);
      tables := WithMember(tables, name, m, x.run);
      tasks := tasks + {x};
    }

    /** The commands of one pipeline; Some is an error, with the commands that were carried out all the same. */
    method BatchCreateTasks(xs: seq<Task>, fault: Option<set<nat>>) returns (ok: bool)
      requires Valid() && forall x | x in xs :: x.Fits()
      modifies this
      ensures ok <==> fault.None?
      ensures Valid() && tasks == old(tasks) + Sent(xs, |xs|, fault)
    {
      for i := 0 to |xs|
        invariant Valid() && tasks == old(tasks) + Sent(xs, i, fault)
      {
        SentMore(xs, i, fault);
        if fault.None? || i in fault.value {
          Add(xs[i]);
        }
      }
      ok := fault.None?;
    }

    /** The members with a score in [lo, hi], in no particular order. */
    method ZRangeByScore(name: string, lo: int, hi: int) returns (members: seq<string>)
      ensures forall m :: m in members <==> name in tables && m in tables[name] && lo <= tables[name][m] <= hi
      ensures NoDuplicates(members)
    {
      members := [];
      if name !in tables {
        return;
      }
      var rest := set m | m in tables[name] && lo <= tables[name][m] <= hi;
      ghost var all := rest;
      while rest != {}
        invariant rest <= all && forall m :: m in members <==> m in all && m !in rest
        invariant NoDuplicates(members)
        decreases rest
      {
        var m :| m in rest;
        members := members + [m];
        rest := rest - {m};
      }
    }

    /** The reader decodes each member of the window; None stands for a failing cache. */
    method GetTasksByTime(key: string, start: int, end: int, fails: bool) returns (found: Option<seq<Task>>)
      requires Valid()
      ensures found.None? <==> fails
      ensures found.Some? ==> forall y :: y in found.value <==>
                exists x :: x in CacheAnswer(tasks, buckets, key, start, end) && y == Decoded(x)
      ensures found.Some? && (forall x | x in tasks :: x.timer >= 0) ==>
                && (forall x :: x in found.value <==> x in CacheAnswer(tasks, buckets, key, start, end))
                && NoDuplicates(found.value)
    {
      if fails {
        return None;
      }
      var members := ZRangeByScore(key, start, end - 1);
      var out: seq<Task> := [];
      for i := 0 to |members|
        invariant |out| == i && forall j | 0 <= j < i :: out[j] == DecodeMember(members[j])
      {
        out := out + [DecodeMember(members[i])];
      }
      DecodedAnswer(key, start, end, members, out);
      found := Some(out);
    }

    lemma DecodedAnswer(key: string, start: int, end: int, members: seq<string>, out: seq<Task>)
      requires Valid() && |out| == |members| && forall i | 0 <= i < |members| :: out[i] == DecodeMember(members[i])
      requires forall m :: m in members <==> key in tables && m in tables[key] && start <= tables[key][m] < end
      requires NoDuplicates(members)
      ensures forall y :: y in out <==>
                exists x :: x in CacheAnswer(tasks, buckets, key, start, end) && y == Decoded(x)
      ensures (forall x | x in tasks :: x.timer >= 0) ==> NoDuplicates(out)
    {
      forall i | 0 <= i < |members|
        ensures exists x ::
                  x in CacheAnswer(tasks, buckets, key, start, end) && out[i] == Decoded(x) && MemberOf(x) == members[i]
      {
        assert members[i] in members;
        var x := MemberIsCached(key, start, end, members[i]);
      }
      forall x | x in CacheAnswer(tasks, buckets, key, start, end)
        ensures Decoded(x) in out
      {
        assert MemberOf(x) in members;
        var i :| 0 <= i < |members| && members[i] == MemberOf(x);
        MemberRoundTripIff(x.timer, x.run);
        assert out[i] == Decoded(x);
      }
    }

    lemma MemberIsCached(key: string, start: int, end: int, m: string) returns (x: Task)
      requires Valid() && key in tables && m in tables[key] && start <= tables[key][m] < end
      ensures x in CacheAnswer(tasks, buckets, key, start, end) && MemberOf(x) == m
      ensures DecodeMember(m) == Decoded(x)
    {
      x :| x in tasks && TableName(x, buckets) == key && MemberOf(x) == m;
      MemberRoundTripIff(x.timer, x.run);
    }
  }

  // ---- Buckets and windows partition the tasks ----

  /** The scan of window k of a minute's slice, as the trigger asks for it. */
  function WindowScan(tasks: set<Task>, buckets: nat, g: nat, minute: int, bucket: int, k: nat): set<Task>
    requires buckets > 0
  {
    CacheAnswer(tasks, buckets, GetSliceMsgKey(minute, bucket), minute + W.Span(g, k), minute + W.Span(g, k + 1))
  }

  ghost predicate FoundBy(tasks: set<Task>, buckets: nat, g: nat, minute: int, x: Task, bucket: int, k: nat)
    requires buckets > 0 && g > 0
  {
    0 <= bucket < buckets && k < T.Windows(g) && x in WindowScan(tasks, buckets, g, minute, bucket, k)
  }

  lemma FoundByIff(tasks: set<Task>, buckets: nat, g: nat, minute: int, x: Task, bucket: int, k: nat)
    requires 0 < buckets && Int64(buckets) && g > 0 && x in tasks && x.Fits()
    requires Int64(minute) && minute == MinuteOf(minute)
    ensures FoundBy(tasks, buckets, g, minute, x, bucket, k)
       <==> && MinuteOf(x.run) == minute && TruncMod(x.timer, buckets) == bucket && 0 <= bucket
            && k < T.Windows(g) && W.InWindow(g, minute, x.run, k)
  {
    if 0 <= bucket < buckets {
      TableIsSlice(x.timer, x.run, buckets, minute, bucket);
    }
  }

  /**
    The scans of all buckets and windows of a minute return exactly the cached tasks of the
    minute, each in one scan only, whether or not g divides 60 -- except the tasks of a
    negative timer whose remainder is not zero, which no scan returns.
   */
  lemma ScansPartitionTheMinute(tasks: set<Task>, buckets: nat, g: nat, minute: int, x: Task)
    requires 0 < buckets && Int64(buckets) && g > 0 && Int64(minute) && minute == MinuteOf(minute)
    requires x in tasks && x.Fits()
    ensures (exists bucket, k :: FoundBy(tasks, buckets, g, minute, x, bucket, k))
       <==> MinuteOf(x.run) == minute && (x.timer >= 0 || x.timer % buckets == 0)
    ensures forall b1, k1, b2, k2 |
              FoundBy(tasks, buckets, g, minute, x, b1, k1) && FoundBy(tasks, buckets, g, minute, x, b2, k2) ::
              b1 == b2 && k1 == k2
  {
    forall b1, k1, b2, k2 |
      FoundBy(tasks, buckets, g, minute, x, b1, k1) && FoundBy(tasks, buckets, g, minute, x, b2, k2)
      ensures b1 == b2 && k1 == k2
    {
      FoundByIff(tasks, buckets, g, minute, x, b1, k1);
      FoundByIff(tasks, buckets, g, minute, x, b2, k2);
      W.WindowsAreDisjoint(g, minute, x.run, k1, k2);
    }
    forall bucket, k | FoundBy(tasks, buckets, g, minute, x, bucket, k)
      ensures MinuteOf(x.run) == minute && (x.timer >= 0 || x.timer % buckets == 0)
    {
      FoundByIff(tasks, buckets, g, minute, x, bucket, k);
      NegativeRemainder(x.timer, buckets);
    }
    if MinuteOf(x.run) == minute && (x.timer >= 0 || x.timer % buckets == 0) {
      NegativeRemainder(x.timer, buckets);
      var k := W.WindowsCoverTheMinute(g, minute, x.run);
      FoundByIff(tasks, buckets, g, minute, x, TruncMod(x.timer, buckets), k);
    }
  }

  lemma RemainderIs(a: int, b: int, q: int, r: int)
    requires a == b * q + r && 0 <= r < b
    ensures a % b == r
  {
    var d := q - a / b;
    assert b * d == a % b - r by {
      assert b * d == b * q - b * (a / b);
    }
    assert d >= 1 ==> b * d >= b;
    assert d <= -1 ==> b * d <= -b;
  }

  lemma NegativeRemainder(a: int, b: nat)
    requires b > 0
    ensures TruncMod(a, b) >= 0 <==> a >= 0 || a % b == 0
    ensures -(b as int) < TruncMod(a, b) < b
  {
    var q, r := a / b, a % b;
    if r == 0 {
      assert -a == b * (-q) + 0;
      RemainderIs(-a, b, -q, 0);
    } else {
      assert b * (-q - 1) == -(b * q) - b;
      RemainderIs(-a, b, -q - 1, b - r);
    }
  }

  // ---- The database fallback ----

  /** The fallback's answer: both ends of the range included, not yet run, of the bucket. */
  function DatabaseAnswer(rows: seq<Row>, buckets: nat, bucket: int, start: int, end: int): set<Task>
    requires buckets > 0
  {
    set r |
      r in rows && start <= r.run <= end && r.status == NotRunned && UintMod(r.timer, buckets) == bucket ::
      r.Key()
  }

  function NonNegative(tasks: set<Task>): set<Task> {
    set x | x in tasks && x.timer >= 0
  }

  function NotRunnedKeys(rows: seq<Row>): set<Task> {
    set r | r in rows && r.status == NotRunned :: r.Key()
  }

  /**
    When table and cache hold the same tasks, the database answers, as to timers whose ids are
    not negative, with what the cache would
    answer, less the tasks already run, plus the bucket's waiting tasks from the window's end
    (or the minute's, if the last window overlaps it) up to and including the window's end.
   */
  lemma FallbackAgainstCache(rows: seq<Row>, buckets: nat, minute: int, bucket: int, start: int, end: int)
    requires 0 < buckets && Int64(buckets) && 0 <= bucket < buckets
    requires Int64(minute) && minute == MinuteOf(minute) && minute <= start < minute + MINUTE && start <= end
    requires Unique(rows) && forall r | r in rows :: r.Key().Fits()
    ensures var waiting := NotRunnedKeys(rows);
            var limit := if end < minute + MINUTE then end else minute + MINUTE;
            NonNegative(DatabaseAnswer(rows, buckets, bucket, start, end))
            == NonNegative(
                 (CacheAnswer(KeysOf(rows), buckets, GetSliceMsgKey(minute, bucket), start, end) * waiting)
                 + (set x | x in waiting && x.timer % buckets == bucket && limit <= x.run <= end))
  {
    var key := GetSliceMsgKey(minute, bucket);
    forall r | r in rows && start <= r.run && r.timer >= 0
      ensures TableName(r.Key(), buckets) == key <==> r.run < minute + MINUTE && r.timer % buckets == bucket
    {
      TableIsSlice(r.timer, r.run, buckets, minute, bucket);
      InMinute(r.run, minute);
    }
  }

  /** What a lookup finds: the decoded members of the cache or, when that fails, the rows of the table. */
  function Lookup(cached: set<Task>, rows: seq<Row>, buckets: nat, key: string, bucket: int, start: int, end: int,
                  cacheFails: bool): set<Task>
    requires buckets > 0
  {
    if cacheFails then DatabaseAnswer(rows, buckets, bucket, start, end)
    else set x | x in CacheAnswer(cached, buckets, key, start, end) :: Decoded(x)
  }

  /** Cache first; on its error the database; on both errors nothing. */
  method GetTasks(cache: TaskCache, table: TaskTable, key: string, bucket: int, start: int, end: int,
                  cacheFails: bool, tableFails: bool)
    returns (found: Option<seq<Task>>)
    requires cache.Valid() && table.Valid()
    ensures found.None? <==> cacheFails && tableFails
    ensures found.Some? ==> forall x :: x in found.value <==>
              x in Lookup(cache.tasks, table.rows, cache.buckets, key, bucket, start, end, cacheFails)
    ensures found.Some? && (cacheFails || forall x | x in cache.tasks :: x.timer >= 0) ==> NoDuplicates(found.value)
  {
    found := cache.GetTasksByTime(key, start, end, cacheFails);
    if found.Some? {
      return;
    }
    var rows := table.GetTasksByTimeRange(start, end, NotRunned, tableFails);
    if rows == None {
      return None;
    }
    var out: seq<Task> := [];
    for i := 0 to |rows.value|
      invariant forall x | x in out :: UintMod(x.timer, cache.buckets) == bucket
      invariant forall x | x in out :: exists j :: 0 <= j < i && rows.value[j].Key() == x
      invariant forall j | 0 <= j < i && UintMod(rows.value[j].timer, cache.buckets) == bucket ::
                  rows.value[j].Key() in out
      invariant NoDuplicates(out)
    {
      var r := rows.value[i];
      assert r.Key() !in out;
      if UintMod(r.timer, cache.buckets) == bucket {
        out := out + [r.Key()];
      }
    }
    return Some(out);
  }
}
