/** The task list of `Scheduler` (src/scheduler.h, src/scheduler.cc) as the code
    keeps it: a list searched from the front.  It refines the numbered map that
    the protocol model searches by least number. */
module TaskQueue {
  import opened Wrappers
  import opened ParkWake

  datatype Entry = Entry(id: nat, task: Task)

  ghost predicate Ordered(list: seq<Entry>, next: nat) {
    && (forall i, j :: 0 <= i < j < |list| ==> list[i].id < list[j].id)
    && (forall i :: 0 <= i < |list| ==> list[i].id < next)
  }

  /** The list as the map from task number to task. */
  ghost function AsMap(list: seq<Entry>): map<nat, Task>
    requires exists next :: Ordered(list, next)
  {
    map i | 0 <= i < |list| :: list[i].id := list[i].task
  }

  function Erase(list: seq<Entry>, i: nat): (rest: seq<Entry>)
    requires i < |list|
    ensures |rest| == |list| - 1
    ensures forall j :: 0 <= j < i ==> rest[j] == list[j]
    ensures forall j :: i <= j < |rest| ==> rest[j] == list[j + 1]
  {
    list[..i] + list[i + 1..]
  }

  lemma EraseOrdered(list: seq<Entry>, next: nat, i: nat)
    requires Ordered(list, next) && i < |list|
    ensures Ordered(Erase(list, i), next)
  {
  }

  lemma AsMapHas(list: seq<Entry>, next: nat, j: nat)
    requires Ordered(list, next) && j < |list|
    ensures list[j].id in AsMap(list) && AsMap(list)[list[j].id] == list[j].task
  {
  }

  lemma AsMapFrom(list: seq<Entry>, next: nat, k: nat) returns (j: nat)
    requires Ordered(list, next) && k in AsMap(list)
    ensures j < |list| && list[j].id == k
  {
    j :| 0 <= j < |list| && list[j].id == k;
  }

  lemma EraseAt(list: seq<Entry>, rest: seq<Entry>, next: nat, i: nat, k: nat)
    requires Ordered(list, next) && i < |list| && rest == Erase(list, i) && Ordered(rest, next)
    ensures k in AsMap(rest) ==> k in AsMap(list) && k != list[i].id && AsMap(rest)[k] == AsMap(list)[k]
    ensures k in AsMap(list) && k != list[i].id ==> k in AsMap(rest)
  {
    hide AsMap;
    if k in AsMap(rest) {
      var j := AsMapFrom(rest, next, k);
      AsMapHas(rest, next, j);
      AsMapHas(list, next, if j < i then j else j + 1);
    } else if k in AsMap(list) && k != list[i].id {
      var j := AsMapFrom(list, next, k);
      AsMapHas(rest, next, if j < i then j else j - 1);
    }
  }

  lemma MapMinus(m: map<nat, Task>, m': map<nat, Task>, x: nat)
    requires forall k :: k in m' ==> k in m && k != x && m'[k] == m[k]
    requires forall k :: k in m && k != x ==> k in m'
    ensures m' == m - {x}
  {
  }

  /** Erasing an entry of the list removes its number from the map. */
  lemma AsMapErase(list: seq<Entry>, rest: seq<Entry>, next: nat, i: nat)
    requires Ordered(list, next) && i < |list| && rest == Erase(list, i) && Ordered(rest, next)
    ensures AsMap(rest) == AsMap(list) - {list[i].id}
  {
    forall k
      ensures k in AsMap(rest) ==> k in AsMap(list) && k != list[i].id && AsMap(rest)[k] == AsMap(list)[k]
      ensures k in AsMap(list) && k != list[i].id ==> k in AsMap(rest)
    {
      EraseAt(list, rest, next, i, k);
    }
    MapMinus(AsMap(list), AsMap(rest), list[i].id);
  }

  /** Tasks in order, numbered from `start`. */
  function Numbered(start: nat, tasks: seq<Task>): (es: seq<Entry>)
    ensures |es| == |tasks| && forall i :: 0 <= i < |es| ==> es[i] == Entry(start + i, tasks[i])
  {
    seq(|tasks|, i requires 0 <= i < |tasks| => Entry(start + i, tasks[i]))
  }

  class Scheduler {
    /** `m_tasks`, oldest first. */
    var list: seq<Entry>
    var next: nat
    /** `m_idle_cnt` */
    var idleCnt: nat
    var stopping: bool
    /** Number of calls of `tickle`. */
    var tickles: nat

    ghost predicate Valid()
      reads this
    {
      Ordered(list, next)
    }

    ghost function Tasks(): map<nat, Task>
      requires Valid()
      reads this
    {
      AsMap(list)
    }

    /** `schedules`, of which `schedule` is the case of one task: refused once
        stopping, otherwise all tasks are appended in order, and a waiting thread
        is tickled if the list was empty. */
    method Schedules(tasks: seq<Task>) returns (r: bool)
      requires Valid()
      modifies this`list, this`next, this`tickles
      ensures Valid() && r == !stopping
      ensures !r ==> list == old(list) && next == old(next) && tickles == old(tickles)
      ensures r ==> list == old(list) + Numbered(old(next), tasks)
      ensures r ==> next == old(next) + |tasks|
      ensures r ==> tickles == old(tickles) + (if old(list) == [] && idleCnt > 0 then 1 else 0)
    {
      if stopping {
        return false;
      }
      var needTickle := list == [];
      var begin := 0;
      while begin < |tasks|
        invariant begin <= |tasks| && next == old(next) + begin && Valid() && tickles == old(tickles)
        invariant list == old(list) + Numbered(old(next), tasks[..begin])
      {
        list := list + [Entry(next, tasks[begin])];
        next := next + 1;
        begin := begin + 1;
      }
      assert tasks[..begin] == tasks;
      if needTickle && idleCnt > 0 {
        tickles := tickles + 1;
      }
      return true;
    }

    /** The critical section at the top of `run`: skip tasks pinned elsewhere,
        erase and return the first one that thread `t` may run.  This is the
        search of the protocol model, and it asks for a tickle iff it skipped a
        task or leaves tasks behind while a thread is idle. */
    method Search(t: nat) returns (found: Option<Entry>, needTickle: bool)
      requires Valid()
      modifies this`list
      ensures Valid()
      ensures forall q: Queue :: q.tasks == old(Tasks()) ==>
                Finds(q, t, if found.Some? then Some(found.value.id) else None) &&
                Take(q, t, if found.Some? then Some(found.value.id) else None).tasks == Tasks()
      ensures found.Some? ==> found.value in old(list)
      ensures needTickle <==> (list != [] && idleCnt > 0)
                              || exists i :: 0 <= i < |old(list)| && !Runnable(old(list)[i].task, t)
                                             && (found.None? || old(list)[i].id < found.value.id)
    {
      var i := 0;
      needTickle := false;
      found := None;
      while i < |list|
        invariant i <= |list| && list == old(list) && found.None?
        invariant forall j :: 0 <= j < i ==> !Runnable(list[j].task, t)
        invariant needTickle <==> i > 0
        decreases |list| - i
      {
        if !Runnable(list[i].task, t) {
          i := i + 1;
          needTickle := true;
        } else {
          found := Some(list[i]);
          EraseOrdered(list, next, i);
          AsMapErase(list, Erase(list, i), next, i);
          list := Erase(list, i);
          break;
        }
      }
      SearchFinds(old(list), next, t, i);
      if list != [] && idleCnt > 0 {
        needTickle := true;
      }
    }
  }

  /** The first runnable entry of the list is the runnable task of least number. */
  lemma SearchFinds(list: seq<Entry>, next: nat, t: nat, i: nat)
    requires Ordered(list, next) && i <= |list|
    requires forall j :: 0 <= j < i ==> !Runnable(list[j].task, t)
    requires i < |list| ==> Runnable(list[i].task, t)
    ensures forall q: Queue :: q.tasks == AsMap(list) ==>
              Finds(q, t, if i < |list| then Some(list[i].id) else None)
  {
    assert i < |list| ==> list[i].id in AsMap(list);
  }
}
