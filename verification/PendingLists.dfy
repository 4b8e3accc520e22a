/** The pending tasks and their two indexes, by id and by deadline
    (src/sw/gossip-net/pending_lists.h, src/sw/gossip-net/pending_lists.cpp, src/sw/gossip-net/task.h).

    The evident intent is modelled where the source departs from it: a task is due `timeout` after it
    was added (the source stores the time of adding), and fetching an id erases it (the source forgets
    to, but relies on it when tasks time out). Whether a task due now has timed out is a parameter: the
    source takes the buckets up to and including now, but compares with < inside them. The clock is a
    parameter too. */
module PendingTasks {
  import opened Nodes

  /** The one kind of task: relay an ack naming the probed peer to the node that asked for it. Tasks
      are keyed by the peer. */
  datatype Task = PingReqTask(dest: Node, peer: Node)

  function TaskId(t: Task): string {
    t.peer.id
  }

  datatype Entry = Entry(task: Task, deadline: nat)

  type TaskIndex = map<string, seq<Entry>>

  type TimeoutIndex = map<nat, seq<string>>

  function EntriesOf(index: TaskIndex, id: string): seq<Entry> {
    if id in index then index[id] else []
  }

  function TasksOf(es: seq<Entry>): (ts: seq<Task>)
    ensures |ts| == |es|
    ensures forall i :: 0 <= i < |es| ==> ts[i] == es[i].task
  {
    seq(|es|, i requires 0 <= i < |es| => es[i].task)
  }

  /** How the erasing loop compares a deadline with now. Inclusive: a task due now has timed out, as the
      buckets visited have it. Strict: it has not, as the loop is written. */
  datatype Comparison = Inclusive | Strict

  predicate Due(e: Entry, now: nat, how: Comparison) {
    if how.Inclusive? then e.deadline <= now else e.deadline < now
  }

  function Expired(es: seq<Entry>, now: nat, how: Comparison): seq<Entry> {
    if es == [] then []
    else
      var before, last := Expired(es[..|es| - 1], now, how), es[|es| - 1];
      if Due(last, now, how) then before + [last] else before
  }

  function Unexpired(es: seq<Entry>, now: nat, how: Comparison): seq<Entry> {
    if es == [] then []
    else
      var before, last := Unexpired(es[..|es| - 1], now, how), es[|es| - 1];
      if Due(last, now, how) then before else before + [last]
  }

  /** The tasks of one id among those handed out, in order. */
  function ForId(ts: seq<Task>, id: string): seq<Task> {
    if ts == [] then []
    else
      var before, last := ForId(ts[..|ts| - 1], id), ts[|ts| - 1];
      if TaskId(last) == id then before + [last] else before
  }

  /** Every list is kept under its id, and no list is empty. */
  ghost predicate Keyed(index: TaskIndex) {
    forall id :: id in index ==> index[id] != [] && KeyedBy(index[id], id)
  }

  ghost predicate KeyedBy(es: seq<Entry>, id: string) {
    forall i :: 0 <= i < |es| ==> TaskId(es[i].task) == id
  }

  /** The indexes agree: each held task can be found through the bucket of its deadline. The buckets
      may still name ids whose tasks have been fetched. */
  ghost predicate Agree(index: TaskIndex, timeouts: TimeoutIndex) {
    forall id, i :: id in index && 0 <= i < |index[id]| ==>
      index[id][i].deadline in timeouts && id in timeouts[index[id][i].deadline]
  }

  function WithEntry(index: TaskIndex, e: Entry): TaskIndex {
    index[TaskId(e.task) := EntriesOf(index, TaskId(e.task)) + [e]]
  }

  /** The id joins the bucket of the deadline. */
  function WithBucket(timeouts: TimeoutIndex, deadline: nat, id: string): TimeoutIndex {
    timeouts[deadline := (if deadline in timeouts then timeouts[deadline] else []) + [id]]
  }

  /** What a full scan would leave. */
  function Remaining(index: TaskIndex, now: nat, how: Comparison): TaskIndex {
    map id | id in index && Unexpired(index[id], now, how) != [] :: Unexpired(index[id], now, how)
  }

  /** The tasks handed out are, id by id and in order, those that a full scan would find expired. */
  ghost predicate ExpiresAll(index: TaskIndex, now: nat, how: Comparison, out: seq<Task>) {
    forall id :: ForId(out, id) == TasksOf(Expired(EntriesOf(index, id), now, how))
  }

  // ----- Expiry of one list -----

  lemma {:induction false} ExpiryOfUnexpired(es: seq<Entry>, now: nat, how: Comparison)
    ensures Unexpired(Unexpired(es, now, how), now, how) == Unexpired(es, now, how)
    ensures Expired(Unexpired(es, now, how), now, how) == []
  {
    if es != [] {
      ExpiryOfUnexpired(es[..|es| - 1], now, how);
      var kept := Unexpired(es, now, how);
      if !Due(es[|es| - 1], now, how) {
        assert kept[..|kept| - 1] == Unexpired(es[..|es| - 1], now, how);
      }
    }
  }

  /** Entries none of which is due stay as they are. */
  lemma {:induction false} NoneExpired(es: seq<Entry>, now: nat, how: Comparison)
    requires forall i :: 0 <= i < |es| ==> !Due(es[i], now, how)
    ensures Unexpired(es, now, how) == es && Expired(es, now, how) == []
  {
    if es != [] {
      NoneExpired(es[..|es| - 1], now, how);
    }
  }

  lemma {:induction false} ExpiryKeepsIds(es: seq<Entry>, now: nat, how: Comparison, id: string)
    requires KeyedBy(es, id)
    ensures KeyedBy(Unexpired(es, now, how), id) && KeyedBy(Expired(es, now, how), id)
    ensures forall e :: e in Unexpired(es, now, how) ==> e in es
  {
    if es != [] {
      ExpiryKeepsIds(es[..|es| - 1], now, how, id);
    }
  }

  /** Every entry either expires or stays, once. */
  lemma {:induction false} ExpiryPartitions(es: seq<Entry>, now: nat, how: Comparison)
    ensures multiset(TasksOf(es))
         == multiset(TasksOf(Expired(es, now, how))) + multiset(TasksOf(Unexpired(es, now, how)))
  {
    hide TasksOf;
    hide Due;
    if es != [] {
      var init, last := es[..|es| - 1], es[|es| - 1];
      ExpiryPartitions(init, now, how);
      assert TasksOf(es) == TasksOf(init) + [last.task];
      if Due(last, now, how) {
        assert TasksOf(Expired(es, now, how)) == TasksOf(Expired(init, now, how)) + [last.task];
      } else {
        assert TasksOf(Unexpired(es, now, how)) == TasksOf(Unexpired(init, now, how)) + [last.task];
      }
    }
  }

  /** What stays is not due. */
  lemma {:induction false} UnexpiredAreNotDue(es: seq<Entry>, now: nat, how: Comparison, i: nat)
    requires i < |Unexpired(es, now, how)|
    ensures !Due(Unexpired(es, now, how)[i], now, how) && Unexpired(es, now, how)[i] in es
  {
    var init := es[..|es| - 1];
    if i < |Unexpired(init, now, how)| {
      UnexpiredAreNotDue(init, now, how, i);
    }
  }

  lemma {:induction false} StaysWhenNotDue(es: seq<Entry>, now: nat, how: Comparison, i: nat) returns (k: nat)
    requires i < |es| && !Due(es[i], now, how)
    ensures k < |Unexpired(es, now, how)| && Unexpired(es, now, how)[k] == es[i]
  {
    if i == |es| - 1 {
      k := |Unexpired(es, now, how)| - 1;
    } else {
      k := StaysWhenNotDue(es[..|es| - 1], now, how, i);
    }
  }

  lemma {:induction false} ExpiredWhenDue(es: seq<Entry>, now: nat, how: Comparison, k: nat)
    requires k < |es| && Due(es[k], now, how)
    ensures Expired(es, now, how) != []
  {
    if k < |es| - 1 {
      ExpiredWhenDue(es[..|es| - 1], now, how, k);
    }
  }

  lemma {:induction false} ForIdConcat(a: seq<Task>, b: seq<Task>, id: string)
    ensures ForId(a + b, id) == ForId(a, id) + ForId(b, id)
  {
    if b == [] {
      assert a + b == a;
    } else {
      var n := |b| - 1;
      assert (a + b)[..|a + b| - 1] == a + b[..n];
      ForIdConcat(a, b[..n], id);
    }
  }

  lemma {:induction false} ForIdOfOne(es: seq<Entry>, own: string, id: string)
    requires KeyedBy(es, own)
    ensures ForId(TasksOf(es), id) == if id == own then TasksOf(es) else []
  {
    if es != [] {
      var ts, n := TasksOf(es), |es| - 1;
      assert ts[..n] == TasksOf(es[..n]);
      ForIdOfOne(es[..n], own, id);
    }
  }

  lemma {:induction false} ForIdCounts(ts: seq<Task>, t: Task)
    ensures multiset(ForId(ts, TaskId(t)))[t] == multiset(ts)[t]
  {
    if ts != [] {
      var n := |ts| - 1;
      ForIdCounts(ts[..n], t);
      assert ts == ts[..n] + [ts[n]];
    }
  }

  // ----- The sweep over the ids named by the buckets -----

  datatype Sweep = Sweep(index: TaskIndex, results: seq<Task>)

  /** One id of a bucket; it may have been removed already. */
  function SweepId(s: Sweep, id: string, now: nat, how: Comparison): Sweep {
    if id !in s.index then s
    else
      var kept := Unexpired(s.index[id], now, how);
      Sweep(if kept == [] then s.index - {id} else s.index[id := kept],
            s.results + TasksOf(Expired(s.index[id], now, how)))
  }

  function SweepAll(index: TaskIndex, ids: seq<string>, now: nat, how: Comparison): Sweep {
    if ids == [] then Sweep(index, [])
    else SweepId(SweepAll(index, ids[..|ids| - 1], now, how), ids[|ids| - 1], now, how)
  }

  lemma SweepIdFacts(s: Sweep, own: string, now: nat, how: Comparison, id: string)
    requires Keyed(s.index)
    ensures Keyed(SweepId(s, own, now, how).index)
    ensures EntriesOf(SweepId(s, own, now, how).index, id)
         == if id == own then Unexpired(EntriesOf(s.index, id), now, how) else EntriesOf(s.index, id)
    ensures ForId(SweepId(s, own, now, how).results, id)
         == ForId(s.results, id) + if id == own then TasksOf(Expired(EntriesOf(s.index, id), now, how)) else []
  {
    if own in s.index {
      var es := s.index[own];
      ExpiryKeepsIds(es, now, how, own);
      ForIdConcat(s.results, TasksOf(Expired(es, now, how)), id);
      ForIdOfOne(Expired(es, now, how), own, id);
    }
  }

  lemma {:induction false} SweepFacts(index: TaskIndex, ids: seq<string>, now: nat, how: Comparison, id: string)
    requires Keyed(index)
    ensures
      var s, es := SweepAll(index, ids, now, how), EntriesOf(index, id);
      && Keyed(s.index)
      && EntriesOf(s.index, id) == (if id in ids then Unexpired(es, now, how) else es)
      && ForId(s.results, id) == if id in ids then TasksOf(Expired(es, now, how)) else []
  {
    hide KeyedBy;
    hide Expired;
    hide Unexpired;
    if ids != [] {
      var n := |ids| - 1;
      SweepFacts(index, ids[..n], now, how, id);
      assert ids == ids[..n] + [ids[n]];
      SweepIdFacts(SweepAll(index, ids[..n], now, how), ids[n], now, how, id);
      ExpiryOfUnexpired(EntriesOf(index, id), now, how);
    }
  }

  /** Every id with a task that is due is among these. */
  ghost predicate CoversDue(index: TaskIndex, ids: seq<string>, now: nat, how: Comparison) {
    forall id, i :: id in index && 0 <= i < |index[id]| && Due(index[id][i], now, how) ==> id in ids
  }

  /** A sweep that visits every id with a task that is due does what a full scan would. */
  lemma SweepIsFullScan(index: TaskIndex, ids: seq<string>, now: nat, how: Comparison)
    requires Keyed(index) && CoversDue(index, ids, now, how)
    ensures SweepAll(index, ids, now, how).index == Remaining(index, now, how)
    ensures ExpiresAll(index, now, how, SweepAll(index, ids, now, how).results)
  {
    var s := SweepAll(index, ids, now, how);
    forall id
      ensures EntriesOf(s.index, id) == Unexpired(EntriesOf(index, id), now, how)
      ensures ForId(s.results, id) == TasksOf(Expired(EntriesOf(index, id), now, how))
    {
      SweepFacts(index, ids, now, how, id);
      if id !in ids {
        NoneExpired(EntriesOf(index, id), now, how);
      }
    }
    SweepFacts(index, ids, now, how, "");
    forall id
      ensures id in s.index <==> id in Remaining(index, now, how)
      ensures id in s.index ==> s.index[id] == Remaining(index, now, how)[id]
    {
      assert EntriesOf(s.index, id) == Unexpired(EntriesOf(index, id), now, how);
    }
  }

  /** A task that is due under an id that the sweep does not visit stays and is not handed out. */
  lemma TaskIsMissed(index: TaskIndex, ids: seq<string>, now: nat, how: Comparison, id: string, k: nat)
    requires Keyed(index) && id in index && id !in ids && k < |index[id]| && Due(index[id][k], now, how)
    ensures SweepAll(index, ids, now, how).index != Remaining(index, now, how)
    ensures !ExpiresAll(index, now, how, SweepAll(index, ids, now, how).results)
  {
    SweepFacts(index, ids, now, how, id);
    ExpiredWhenDue(index[id], now, how, k);
    var s := SweepAll(index, ids, now, how);
    assert EntriesOf(s.index, id)[k] == index[id][k];
    if id in Remaining(index, now, how) && k < |Remaining(index, now, how)[id]| {
      UnexpiredAreNotDue(index[id], now, how, k);
    }
    assert ForId(s.results, id) == [];
    assert |TasksOf(Expired(index[id], now, how))| > 0;
  }

  /** A sweep does what a full scan would exactly when it visits every id with a task that is due. */
  lemma SweepIsFullScanExactlyWhen(index: TaskIndex, ids: seq<string>, now: nat, how: Comparison)
    requires Keyed(index)
    ensures SweepAll(index, ids, now, how).index == Remaining(index, now, how) <==> CoversDue(index, ids, now, how)
    ensures ExpiresAll(index, now, how, SweepAll(index, ids, now, how).results) <==> CoversDue(index, ids, now, how)
  {
    hide ExpiresAll;
    hide Remaining;
    if CoversDue(index, ids, now, how) {
      SweepIsFullScan(index, ids, now, how);
    } else {
      var id: string, i: nat :| id in index && i < |index[id]| && Due(index[id][i], now, how) && id !in ids;
      TaskIsMissed(index, ids, now, how, id, i);
    }
  }

  lemma RemainingStaysKeyed(index: TaskIndex, now: nat, how: Comparison)
    requires Keyed(index)
    ensures Keyed(Remaining(index, now, how))
  {
    forall id | id in Remaining(index, now, how)
      ensures KeyedBy(Remaining(index, now, how)[id], id)
    {
      ExpiryKeepsIds(index[id], now, how, id);
    }
  }

  // ----- The two indexes across a sweep -----

  /** The buckets that are kept. */
  function Later(timeouts: TimeoutIndex, now: nat): TimeoutIndex {
    map t | t in timeouts && now < t :: timeouts[t]
  }

  /** These are the ids that the buckets up to and including now name. */
  ghost predicate Names(ids: seq<string>, timeouts: TimeoutIndex, now: nat) {
    forall id :: id in ids <==> exists t :: t in timeouts && t <= now && id in timeouts[t]
  }

  ghost predicate NoneDueExactly(index: TaskIndex, now: nat) {
    forall id, i :: id in index && 0 <= i < |index[id]| ==> index[id][i].deadline != now
  }

  lemma BucketsCoverDue(index: TaskIndex, timeouts: TimeoutIndex, ids: seq<string>, now: nat, how: Comparison)
    requires Agree(index, timeouts) && Names(ids, timeouts, now)
    ensures CoversDue(index, ids, now, how)
  {
  }

  /** After a sweep the two indexes still agree if and only if it compares inclusively or no task is due
      at its very moment. */
  lemma AgreeAfterSweep(index: TaskIndex, timeouts: TimeoutIndex, now: nat, how: Comparison)
    requires Keyed(index) && Agree(index, timeouts)
    ensures Agree(Remaining(index, now, how), Later(timeouts, now)) <==> how.Inclusive? || NoneDueExactly(index, now)
  {
    if how.Inclusive? || NoneDueExactly(index, now) {
      RemainingAgrees(index, timeouts, now, how);
    } else {
      var id: string, i: nat :| id in index && i < |index[id]| && index[id][i].deadline == now;
      var k := TaskIsStranded(index, timeouts, now, id, i);
    }
  }

  /** What is left is due later, so its buckets are still there. */
  lemma RemainingAgrees(index: TaskIndex, timeouts: TimeoutIndex, now: nat, how: Comparison)
    requires Agree(index, timeouts) && (how.Inclusive? || NoneDueExactly(index, now))
    ensures Agree(Remaining(index, now, how), Later(timeouts, now))
  {
    forall id: string, i: nat | id in Remaining(index, now, how) && i < |Remaining(index, now, how)[id]|
      ensures
        var e := Remaining(index, now, how)[id][i];
        e.deadline in Later(timeouts, now) && id in timeouts[e.deadline]
    {
      UnexpiredAreNotDue(index[id], now, how, i);
    }
  }

  /** A task due at the very moment of a strict sweep is still held after it, and its bucket is gone. */
  lemma TaskIsStranded(index: TaskIndex, timeouts: TimeoutIndex, now: nat, id: string, i: nat) returns (k: nat)
    requires id in index && i < |index[id]| && index[id][i].deadline == now
    ensures
      var left := Remaining(index, now, Strict);
      id in left && k < |left[id]| && left[id][k] == index[id][i]
    ensures now !in Later(timeouts, now)
    ensures !Agree(Remaining(index, now, Strict), Later(timeouts, now))
  {
    k := StaysWhenNotDue(index[id], now, Strict, i);
    assert Remaining(index, now, Strict)[id][k].deadline == now;
  }

  // ----- After a strict sweep -----

  /** The indexes agree except about tasks due at this time. */
  ghost predicate AgreeBut(index: TaskIndex, timeouts: TimeoutIndex, time: nat) {
    forall id, i :: id in index && 0 <= i < |index[id]| && index[id][i].deadline != time ==>
      index[id][i].deadline in timeouts && id in timeouts[index[id][i].deadline]
  }

  /** Every task still held that was due at this time belongs to an id among these. */
  ghost predicate StrandedAmong(index: TaskIndex, time: nat, ids: seq<string>) {
    forall id, i :: id in index && 0 <= i < |index[id]| && index[id][i].deadline == time ==> id in ids
  }

  lemma StrictSweepLeaves(index: TaskIndex, timeouts: TimeoutIndex, now: nat)
    requires Agree(index, timeouts)
    ensures AgreeBut(Remaining(index, now, Strict), Later(timeouts, now), now)
  {
    forall id: string, i: nat | id in Remaining(index, now, Strict) && i < |Remaining(index, now, Strict)[id]|
      ensures
        var e := Remaining(index, now, Strict)[id][i];
        e.deadline != now ==> e.deadline in Later(timeouts, now) && id in timeouts[e.deadline]
    {
      UnexpiredAreNotDue(index[id], now, Strict, i);
    }
  }

  datatype Indexes = Indexes(index: TaskIndex, timeouts: TimeoutIndex)

  /** One addition or fetch, on both indexes. */
  ghost predicate Touches(x: Indexes, c: Call, x': Indexes) {
    match c
    case Add(task, deadline) =>
      x' == Indexes(WithEntry(x.index, Entry(task, deadline)), WithBucket(x.timeouts, deadline, TaskId(task)))
    case Fetch(id, out) =>
      out == TasksOf(EntriesOf(x.index, id)) && x' == x.(index := x.index - {id})
    case Timeout(_, _, _) => false
  }

  /** Additions and fetches, and no sweep. */
  ghost predicate Undisturbed(xs: seq<Indexes>, calls: seq<Call>) {
    |xs| == |calls| + 1 && forall i :: 0 <= i < |calls| ==> Touches(xs[i], calls[i], xs[i + 1])
  }

  lemma TouchKeepsAgreeBut(x: Indexes, c: Call, x': Indexes, time: nat)
    requires Keyed(x.index) && AgreeBut(x.index, x.timeouts, time) && Touches(x, c, x')
    ensures Keyed(x'.index) && AgreeBut(x'.index, x'.timeouts, time)
  {
  }

  lemma {:induction false} UndisturbedKeepsAgreeBut(xs: seq<Indexes>, calls: seq<Call>, time: nat, k: nat)
    requires Undisturbed(xs, calls) && k <= |calls|
    requires Keyed(xs[0].index) && AgreeBut(xs[0].index, xs[0].timeouts, time)
    ensures Keyed(xs[k].index) && AgreeBut(xs[k].index, xs[k].timeouts, time)
  {
    if k > 0 {
      UndisturbedKeepsAgreeBut(xs, calls, time, k - 1);
      TouchKeepsAgreeBut(xs[k - 1], calls[k - 1], xs[k], time);
    }
  }

  lemma DueAmong(index: TaskIndex, timeouts: TimeoutIndex, ids: seq<string>, time: nat, later: nat, how: Comparison)
    requires AgreeBut(index, timeouts, time) && time < later && Names(ids, timeouts, later)
    ensures CoversDue(index, ids, later, how) <==> StrandedAmong(index, time, ids)
  {
    forall id: string, i: nat | id in index && i < |index[id]| && Due(index[id][i], later, how)
      ensures index[id][i].deadline != time ==> id in ids
    {
      var t := index[id][i].deadline;
      assert t != time ==> t in timeouts && id in timeouts[t];
    }
    if CoversDue(index, ids, later, how) {
      forall id: string, i: nat | id in index && i < |index[id]| && index[id][i].deadline == time
        ensures id in ids
      {
        assert Due(index[id][i], later, how);
      }
    }
  }

  /** What a caller sees of a strict sweep: after any additions and fetches, a later sweep with either
      comparison hands out and removes what a full scan would if and only if each id that still holds a
      task due exactly at the first sweep is named again by a bucket. */
  lemma LaterSweepMisses(index: TaskIndex, timeouts: TimeoutIndex, now: nat, xs: seq<Indexes>, calls: seq<Call>,
                         later: nat, how: Comparison, ids: seq<string>)
    requires Keyed(index) && Agree(index, timeouts) && now < later
    requires Undisturbed(xs, calls) && xs[0] == Indexes(Remaining(index, now, Strict), Later(timeouts, now))
    requires Names(ids, xs[|calls|].timeouts, later)
    ensures
      var left := xs[|calls|].index;
      && (SweepAll(left, ids, later, how).index == Remaining(left, later, how) <==> StrandedAmong(left, now, ids))
      && (ExpiresAll(left, later, how, SweepAll(left, ids, later, how).results) <==> StrandedAmong(left, now, ids))
  {
    RemainingStaysKeyed(index, now, Strict);
    StrictSweepLeaves(index, timeouts, now);
    UndisturbedKeepsAgreeBut(xs, calls, now, |calls|);
    var x := xs[|calls|];
    LaterSweep(x.index, x.timeouts, now, later, how, ids);
  }

  lemma LaterSweep(index: TaskIndex, timeouts: TimeoutIndex, time: nat, later: nat, how: Comparison, ids: seq<string>)
    requires Keyed(index) && AgreeBut(index, timeouts, time) && time < later && Names(ids, timeouts, later)
    ensures SweepAll(index, ids, later, how).index == Remaining(index, later, how) <==> StrandedAmong(index, time, ids)
    ensures ExpiresAll(index, later, how, SweepAll(index, ids, later, how).results) <==> StrandedAmong(index, time, ids)
  {
    hide ExpiresAll;
    hide Remaining;
    DueAmong(index, timeouts, ids, time, later, how);
    SweepIsFullScanExactlyWhen(index, ids, later, how);
  }

  class PendingLists {
    const timeout: nat
    var taskIndex: TaskIndex
    var timeoutIndex: TimeoutIndex

    ghost predicate Valid()
      reads this
    {
      Keyed(taskIndex) && Agree(taskIndex, timeoutIndex)
    }

    constructor (timeout: nat)
      ensures Valid() && taskIndex == map[] && this.timeout == timeout
    {
      this.timeout := timeout;
      taskIndex, timeoutIndex := map[], map[];
    }

    method Add(task: Task, now: nat)
      requires Valid()
      modifies this
      ensures Valid()
      ensures taskIndex == WithEntry(old(taskIndex), Entry(task, now + timeout))
      ensures timeoutIndex == WithBucket(old(timeoutIndex), now + timeout, TaskId(task))
      ensures EntriesOf(taskIndex, task.peer.id)
           == EntriesOf(old(taskIndex), task.peer.id) + [Entry(task, now + timeout)]
      ensures forall id :: id != task.peer.id ==> EntriesOf(taskIndex, id) == EntriesOf(old(taskIndex), id)
    {
      var deadline, id := now + timeout, TaskId(task);
      taskIndex := taskIndex[id := EntriesOf(taskIndex, id) + [Entry(task, deadline)]];
      var bucket := if deadline in timeoutIndex then timeoutIndex[deadline] else [];
      timeoutIndex := timeoutIndex[deadline := bucket + [id]];
    }

    method Fetch(id: string) returns (results: seq<Task>)
      requires Valid()
      modifies this`taskIndex
      ensures Valid()
      ensures results == TasksOf(EntriesOf(old(taskIndex), id))
      ensures taskIndex == old(taskIndex) - {id}
    {
      if id !in taskIndex {
        assert taskIndex == taskIndex - {id};
        return [];
      }
      var tasks := taskIndex[id];
      results := [];
      for i := 0 to |tasks|
        invariant results == TasksOf(tasks[..i])
      {
        results := results + [tasks[i].task];
      }
      assert tasks[..|tasks|] == tasks;
      taskIndex := taskIndex - {id};
    }

    /** ids: those that the buckets visited name, in the order of the visits. */
    method TimeoutTasks(now: nat, how: Comparison) returns (results: seq<Task>, ghost ids: seq<string>)
      modifies this
      ensures Names(ids, old(timeoutIndex), now)
      ensures Sweep(taskIndex, results) == SweepAll(old(taskIndex), ids, now, how)
      ensures timeoutIndex == Later(old(timeoutIndex), now)
      ensures old(Valid()) ==> taskIndex == Remaining(old(taskIndex), now, how)
      ensures old(Valid()) ==> ExpiresAll(old(taskIndex), now, how, results)
      ensures old(Valid()) ==> (Valid() <==> how.Inclusive? || NoneDueExactly(old(taskIndex), now))
    {
      ghost var index, timeouts := taskIndex, timeoutIndex;
      var buckets := set t | t in timeoutIndex && t <= now;
      var due := buckets;
      results, ids := [], [];
      while due != {}
        invariant due <= buckets && timeoutIndex == timeouts
        invariant Sweep(taskIndex, results) == SweepAll(index, ids, now, how)
        invariant Visited(ids, timeouts, buckets - due)
      {
        var t := First(due);
        var bucket := timeoutIndex[t];
        ghost var before := ids;
        for k := 0 to |bucket|
          invariant ids == before + bucket[..k] && timeoutIndex == timeouts
          invariant Sweep(taskIndex, results) == SweepAll(index, ids, now, how)
        {
          var id := bucket[k];
          if id in taskIndex {
            var expired, kept := Split(taskIndex[id], now, how);
            results := results + expired;
            if kept == [] {
              taskIndex := taskIndex - {id};
            } else {
              taskIndex := taskIndex[id := kept];
            }
          }
          assert (ids + [id])[..|ids|] == ids;
          ids := ids + [id];
        }
        assert bucket[..|bucket|] == bucket;
        VisitedNext(before, timeouts, buckets - due, t);
        assert buckets - (due - {t}) == (buckets - due) + {t};
        due := due - {t};
      }
      VisitedAll(ids, timeouts, buckets - due, now);
      timeoutIndex := Later(timeoutIndex, now);
      if Keyed(index) && Agree(index, timeouts) {
        SweptAll(index, timeouts, ids, now, how);
      }
    }
  }

  /** These are the ids that the buckets of these times name. */
  ghost predicate Visited(ids: seq<string>, timeouts: TimeoutIndex, times: set<nat>) {
    forall id :: id in ids <==> exists t :: t in times && t in timeouts && id in timeouts[t]
  }

  lemma VisitedNext(ids: seq<string>, timeouts: TimeoutIndex, times: set<nat>, t: nat)
    requires Visited(ids, timeouts, times) && t in timeouts
    ensures Visited(ids + timeouts[t], timeouts, times + {t})
  {
    forall id
      ensures id in ids + timeouts[t] <==> exists u :: u in times + {t} && u in timeouts && id in timeouts[u]
    {
      if id in timeouts[t] {
        assert t in times + {t};
      } else if id in ids {
        var u :| u in times && u in timeouts && id in timeouts[u];
        assert u in times + {t};
      }
    }
  }

  lemma VisitedAll(ids: seq<string>, timeouts: TimeoutIndex, times: set<nat>, now: nat)
    requires Visited(ids, timeouts, times) && forall t :: t in times <==> t in timeouts && t <= now
    ensures Names(ids, timeouts, now)
  {
    forall id
      ensures id in ids <==> exists t :: t in timeouts && t <= now && id in timeouts[t]
    {
      if t :| t in timeouts && t <= now && id in timeouts[t] {
        assert t in times;
      }
    }
  }

  lemma SweptAll(index: TaskIndex, timeouts: TimeoutIndex, ids: seq<string>, now: nat, how: Comparison)
    requires Keyed(index) && Agree(index, timeouts) && Names(ids, timeouts, now)
    ensures SweepAll(index, ids, now, how).index == Remaining(index, now, how)
    ensures ExpiresAll(index, now, how, SweepAll(index, ids, now, how).results)
    ensures Keyed(Remaining(index, now, how))
    ensures Agree(Remaining(index, now, how), Later(timeouts, now)) <==> how.Inclusive? || NoneDueExactly(index, now)
  {
    BucketsCoverDue(index, timeouts, ids, now, how);
    SweepIsFullScan(index, ids, now, how);
    RemainingStaysKeyed(index, now, how);
    AgreeAfterSweep(index, timeouts, now, how);
  }

  /** The erasing loop over one list. */
  method Split(tasks: seq<Entry>, now: nat, how: Comparison) returns (expired: seq<Task>, kept: seq<Entry>)
    ensures expired == TasksOf(Expired(tasks, now, how)) && kept == Unexpired(tasks, now, how)
  {
    expired, kept := [], [];
    for i := 0 to |tasks|
      invariant expired == TasksOf(Expired(tasks[..i], now, how)) && kept == Unexpired(tasks[..i], now, how)
    {
      assert tasks[..i + 1][..i] == tasks[..i];
      if Due(tasks[i], now, how) {
        expired := expired + [tasks[i].task];
      } else {
        kept := kept + [tasks[i]];
      }
    }
    assert tasks[..|tasks|] == tasks;
  }

  /** The buckets are visited by time. */
  method First(due: set<nat>) returns (t: nat)
    requires due != {}
    ensures t in due && forall u :: u in due ==> t <= u
  {
    t :| t in due;
    var rest := due - {t};
    while rest != {}
      invariant rest <= due && t in due
      invariant forall u :: u in due && u !in rest ==> t <= u
    {
      var u :| u in rest;
      rest := rest - {u};
      if u < t {
        t := u;
      }
    }
  }

  // ----- Whole runs -----

  datatype Call =
    | Add(task: Task, deadline: nat)
    | Fetch(id: string, out: seq<Task>)
    | Timeout(now: nat, how: Comparison, out: seq<Task>)

  ghost predicate Step(index: TaskIndex, c: Call, index': TaskIndex) {
    match c
    case Add(task, deadline) => index' == WithEntry(index, Entry(task, deadline))
    case Fetch(id, out) => out == TasksOf(EntriesOf(index, id)) && index' == index - {id}
    case Timeout(now, how, out) => ExpiresAll(index, now, how, out) && index' == Remaining(index, now, how)
  }

  ghost predicate Run(indexes: seq<TaskIndex>, calls: seq<Call>) {
    && |indexes| == |calls| + 1 && indexes[0] == map[]
    && forall i :: 0 <= i < |calls| ==> Step(indexes[i], calls[i], indexes[i + 1])
  }

  function AddedTasks(calls: seq<Call>): multiset<Task> {
    if calls == [] then multiset{}
    else
      var c := calls[|calls| - 1];
      AddedTasks(calls[..|calls| - 1]) + if c.Add? then multiset{c.task} else multiset{}
  }

  function HandedOut(calls: seq<Call>): multiset<Task> {
    if calls == [] then multiset{}
    else
      var c := calls[|calls| - 1];
      HandedOut(calls[..|calls| - 1]) + if c.Add? then multiset{} else multiset(c.out)
  }

  /** How often a task is held. */
  function Held(index: TaskIndex, t: Task): nat {
    multiset(TasksOf(EntriesOf(index, TaskId(t))))[t]
  }

  lemma AddConserves(index: TaskIndex, e: Entry, t: Task)
    requires Keyed(index)
    ensures Keyed(WithEntry(index, e))
    ensures Held(WithEntry(index, e), t) == Held(index, t) + if e.task == t then 1 else 0
  {
    var es := EntriesOf(index, TaskId(e.task));
    assert TasksOf(es + [e]) == TasksOf(es) + [e.task];
  }

  lemma FetchConserves(index: TaskIndex, id: string, out: seq<Task>, t: Task)
    requires Keyed(index) && out == TasksOf(EntriesOf(index, id))
    ensures Keyed(index - {id})
    ensures Held(index - {id}, t) + multiset(out)[t] == Held(index, t)
  {
    ForIdOfOne(EntriesOf(index, id), id, TaskId(t));
    ForIdCounts(out, t);
  }

  lemma StepConserves(index: TaskIndex, c: Call, index': TaskIndex, t: Task)
    requires Keyed(index) && Step(index, c, index')
    ensures Keyed(index')
    ensures Held(index', t) + (if c.Add? then 0 else multiset(c.out)[t])
         == Held(index, t) + if c.Add? && c.task == t then 1 else 0
  {
    match c
    case Add(task, deadline) => AddConserves(index, Entry(task, deadline), t);
    case Fetch(id, out) => FetchConserves(index, id, out, t);
    case Timeout(now, how, out) => TimeoutConserves(index, now, how, out, t);
  }

  lemma TimeoutConserves(index: TaskIndex, now: nat, how: Comparison, out: seq<Task>, t: Task)
    requires Keyed(index) && ExpiresAll(index, now, how, out)
    ensures Keyed(Remaining(index, now, how))
    ensures Held(Remaining(index, now, how), t) + multiset(out)[t] == Held(index, t)
  {
    RemainingStaysKeyed(index, now, how);
    ForIdCounts(out, t);
    var es := EntriesOf(index, TaskId(t));
    ExpiryPartitions(es, now, how);
    assert EntriesOf(Remaining(index, now, how), TaskId(t)) == Unexpired(es, now, how);
  }

  /** Over every run, each task that was added is held or has been handed out, exactly once each time
      it was added. */
  lemma {:induction false} TasksAreConserved(indexes: seq<TaskIndex>, calls: seq<Call>, t: Task)
    requires Run(indexes, calls)
    ensures Keyed(indexes[|calls|])
    ensures AddedTasks(calls)[t] == Held(indexes[|calls|], t) + HandedOut(calls)[t]
  {
    if calls != [] {
      var n := |calls| - 1;
      assert Run(indexes[..n + 1], calls[..n]);
      TasksAreConserved(indexes[..n + 1], calls[..n], t);
      StepConserves(indexes[n], calls[n], indexes[n + 1], t);
    }
  }
}
