/** When a pending task is held, handed out and timed out, entry by entry: each task keeps its own
    deadline from the call that adds it to the call that takes it out
    (src/sw/gossip-net/pending_lists.h, src/sw/gossip-net/pending_lists.cpp). */
module PendingEntries {
  import opened PendingTasks

  // ----- One call -----

  /** How often this task is held with this deadline. */
  function HeldEntry(index: TaskIndex, e: Entry): nat {
    if e.task.peer.id in index then multiset(index[e.task.peer.id])[e] else 0
  }

  /** The list of the id gains exactly the entry, at its end; every other list is as it was. */
  lemma EntryIsAppended(index: TaskIndex, e: Entry, id: string)
    ensures EntriesOf(WithEntry(index, e), id)
         == if id == e.task.peer.id then EntriesOf(index, id) + [e] else EntriesOf(index, id)
    ensures id in WithEntry(index, e) <==> id in index || id == e.task.peer.id
  {
  }

  /** How many entries of the call's index leave by it: all those of the id fetched, and all those due
      at a timeout, by the comparison that it makes. */
  function Leaving(index: TaskIndex, c: Call, e: Entry): nat {
    match c
    case Add(_, _) => 0
    case Fetch(id, _) => if id == e.task.peer.id then HeldEntry(index, e) else 0
    case Timeout(now, how, _) =>
      if (if how.Inclusive? then e.deadline <= now else e.deadline < now) then HeldEntry(index, e) else 0
  }

  lemma {:induction false} UnexpiredCount(es: seq<Entry>, now: nat, how: Comparison, e: Entry)
    ensures multiset(Unexpired(es, now, how))[e]
         == if (if how.Inclusive? then e.deadline <= now else e.deadline < now) then 0 else multiset(es)[e]
  {
    if es != [] {
      UnexpiredCount(es[..|es| - 1], now, how, e);
      assert es == es[..|es| - 1] + [es[|es| - 1]];
    }
  }

  lemma RemainingCount(index: TaskIndex, now: nat, how: Comparison, e: Entry)
    ensures HeldEntry(Remaining(index, now, how), e)
         == if (if how.Inclusive? then e.deadline <= now else e.deadline < now) then 0 else HeldEntry(index, e)
  {
    var id := e.task.peer.id;
    if id in index {
      UnexpiredCount(index[id], now, how, e);
      assert multiset(Unexpired(index[id], now, how))[e] > 0 ==> Unexpired(index[id], now, how) != [];
    }
  }

  lemma AppendedCount(index: TaskIndex, added: Entry, e: Entry)
    ensures HeldEntry(WithEntry(index, added), e) == HeldEntry(index, e) + if added == e then 1 else 0
  {
    EntryIsAppended(index, added, e.task.peer.id);
  }

  /** A call adds its own entry, with its own deadline, and takes out exactly the entries that leave by
      it: so a timeout leaves none that is due and takes none that is not. */
  lemma CallMovesEntries(index: TaskIndex, c: Call, index': TaskIndex, e: Entry)
    requires PendingTasks.Step(index, c, index')
    ensures HeldEntry(index', e) + Leaving(index, c, e)
         == HeldEntry(index, e) + if c.Add? && Entry(c.task, c.deadline) == e then 1 else 0
  {
    match c
    case Add(task, deadline) => AppendedCount(index, Entry(task, deadline), e);
    case Fetch(id, out) =>
    case Timeout(now, how, out) => RemainingCount(index, now, how, e);
  }

  /** How many entries for this task have a deadline that a timeout takes. */
  function DueCount(es: seq<Entry>, t: Task, now: nat, how: Comparison): nat {
    if es == [] then 0
    else
      var last := es[|es| - 1];
      DueCount(es[..|es| - 1], t, now, how) +
        if last.task == t && (if how.Inclusive? then last.deadline <= now else last.deadline < now) then 1 else 0
  }

  lemma {:induction false} ExpiredCount(es: seq<Entry>, t: Task, now: nat, how: Comparison)
    ensures multiset(TasksOf(Expired(es, now, how)))[t] == DueCount(es, t, now, how)
  {
    if es != [] {
      var init, last := es[..|es| - 1], es[|es| - 1];
      ExpiredCount(init, t, now, how);
      if Due(last, now, how) {
        assert TasksOf(Expired(es, now, how)) == TasksOf(Expired(init, now, how)) + [last.task];
      }
    }
  }

  /** What a call hands out, task by task: for a fetch one for each entry of the id, for a timeout one for
      each entry that is due. */
  lemma HandedOutByCall(index: TaskIndex, c: Call, index': TaskIndex, t: Task)
    requires PendingTasks.Keyed(index) && PendingTasks.Step(index, c, index') && !c.Add?
    ensures c.Timeout? ==> multiset(c.out)[t] == DueCount(EntriesOf(index, t.peer.id), t, c.now, c.how)
    ensures c.Fetch? ==> |c.out| == |EntriesOf(index, c.id)|
    ensures c.Fetch? ==> forall i :: 0 <= i < |c.out| ==> c.out[i] == EntriesOf(index, c.id)[i].task
  {
    if c.Timeout? {
      ForIdCounts(c.out, t);
      ExpiredCount(EntriesOf(index, t.peer.id), t, c.now, c.how);
    }
  }

  // ----- Whole runs -----

  /** How often this task has been added with this deadline in the first k calls. */
  function AddedEntry(calls: seq<Call>, k: nat, e: Entry): nat
    requires k <= |calls|
  {
    if k == 0 then 0
    else
      var c := calls[k - 1];
      AddedEntry(calls, k - 1, e) + if c.Add? && c.task == e.task && c.deadline == e.deadline then 1 else 0
  }

  function LeftEntry(indexes: seq<TaskIndex>, calls: seq<Call>, k: nat, e: Entry): nat
    requires |indexes| == |calls| + 1 && k <= |calls|
  {
    if k == 0 then 0 else LeftEntry(indexes, calls, k - 1, e) + Leaving(indexes[k - 1], calls[k - 1], e)
  }

  /** Over every run each task added with a deadline is held with it or has left, by a fetch of its id or
      by a timeout at which that deadline was due, exactly as often as it was added. */
  lemma {:induction false} EntriesAreConserved(indexes: seq<TaskIndex>, calls: seq<Call>, k: nat, e: Entry)
    requires PendingTasks.Run(indexes, calls) && k <= |calls|
    ensures AddedEntry(calls, k, e) == HeldEntry(indexes[k], e) + LeftEntry(indexes, calls, k, e)
  {
    if k > 0 {
      EntriesAreConserved(indexes, calls, k - 1, e);
      CallMovesEntries(indexes[k - 1], calls[k - 1], indexes[k], e);
    }
  }

  /** Right after a timeout no task is held that was due at it. */
  lemma NoneDueStays(indexes: seq<TaskIndex>, calls: seq<Call>, k: nat, e: Entry)
    requires PendingTasks.Run(indexes, calls) && k < |calls| && calls[k].Timeout?
    requires if calls[k].how.Inclusive? then e.deadline <= calls[k].now else e.deadline < calls[k].now
    ensures HeldEntry(indexes[k + 1], e) == 0
  {
    CallMovesEntries(indexes[k], calls[k], indexes[k + 1], e);
  }
}
