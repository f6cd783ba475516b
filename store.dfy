/** The in-memory task store `TaskManager`: an ordered list of tasks and the
    counter that hands out ids. */
module Store {
  import opened Options
  import opened Text
  import opened Tasks

  /** Ids strictly increase in list order (so no two tasks share one). */
  predicate IdsIncreasing(ts: seq<Task>)
  {
    forall i, j :: 0 <= i < j < |ts| ==> ts[i].id < ts[j].id
  }

  /** Every id lies in 1..hi-1, that is, among the ids already handed out. */
  predicate IdsBelow(ts: seq<Task>, hi: int)
  {
    forall k :: 0 <= k < |ts| ==> 1 <= ts[k].id < hi
  }

  /** Every title is already trimmed, as `add` stores it. */
  predicate TitlesTrimmed(ts: seq<Task>)
  {
    forall k :: 0 <= k < |ts| ==> NoEdgeWhitespace(ts[k].title)
  }

  /** The store invariant over its three parts: ids increase along the list,
      stay below the counter and were all handed out; titles are trimmed; and
      the counter lies above every id ever handed out. */
  ghost predicate WellFormed(ts: seq<Task>, nextId: int, issued: set<int>)
  {
    && 1 <= nextId
    && IdsIncreasing(ts)
    && IdsBelow(ts, nextId)
    && TitlesTrimmed(ts)
    && (forall i :: i in issued ==> 1 <= i < nextId)
    && (forall k :: 0 <= k < |ts| ==> ts[k].id in issued)
  }

  predicate HasId(ts: seq<Task>, id: int)
  {
    exists k :: 0 <= k < |ts| && ts[k].id == id
  }

  /** What `tasks.removeIf { it.id == id }` leaves: every task whose id
      differs, in the original order. */
  function Without(ts: seq<Task>, id: int): seq<Task>
  {
    if ts == [] then []
    else
      var last := ts[|ts| - 1];
      Without(ts[..|ts| - 1], id) + (if last.id == id then [] else [last])
  }

  /** The index `tasks.firstOrNull { it.id == id }` finds. */
  function FirstIndex(ts: seq<Task>, id: int): (r: Option<nat>)
    ensures r.None? <==> !HasId(ts, id)
    ensures r.Some? ==> r.value < |ts| && ts[r.value].id == id
    ensures r.Some? ==> forall j :: 0 <= j < r.value ==> ts[j].id != id
  {
    if ts == [] then None
    else if ts[0].id == id then Some(0)
    else
      match FirstIndex(ts[1..], id)
      case None => None
      case Some(i) => Some(i + 1)
  }

  /** The list after `markDone(id, value)`: the first task with that id gets
      `done == value`; nothing else changes. */
  function SetDone(ts: seq<Task>, id: int, value: bool): (r: seq<Task>)
    ensures |r| == |ts|
    ensures forall k :: 0 <= k < |ts| ==> r[k].id == ts[k].id && r[k].title == ts[k].title
    ensures forall k :: 0 <= k < |ts| ==>
      if FirstIndex(ts, id) == Some(k) then r[k].done == value else r[k] == ts[k]
  {
    match FirstIndex(ts, id)
    case None => ts
    case Some(i) => ts[i := ts[i].(done := value)]
  }

  /** The list after toggling `id`: the first match gets the negation of its
      current `done`; an absent id leaves the list alone. */
  function Toggled(ts: seq<Task>, id: int): seq<Task>
  {
    match FirstIndex(ts, id)
    case None => ts
    case Some(i) => SetDone(ts, id, !ts[i].done)
  }

  /** Scans `ts` for the first task with the given id. */
  method FindFirst(ts: seq<Task>, id: int) returns (r: Option<nat>)
    ensures r == FirstIndex(ts, id)
  {
    var i := 0;
    while i < |ts|
      invariant 0 <= i <= |ts|
      invariant forall j :: 0 <= j < i ==> ts[j].id != id
    {
      if ts[i].id == id {
        return Some(i);
      }
      i := i + 1;
    }
    return None;
  }

  /** The scan `removeIf` performs: keeps each task whose id differs and
      notes whether any was dropped. */
  method RemoveMatching(ts: seq<Task>, id: int) returns (kept: seq<Task>, removed: bool)
    ensures kept == Without(ts, id)
    ensures removed == HasId(ts, id)
  {
    kept, removed := [], false;
    var i := 0;
    while i < |ts|
      invariant 0 <= i <= |ts|
      invariant kept == Without(ts[..i], id)
      invariant removed == HasId(ts[..i], id)
    {
      assert ts[..i + 1][..i] == ts[..i];
      if ts[i].id == id {
        removed := true;
      } else {
        kept := kept + [ts[i]];
      }
      i := i + 1;
    }
    assert ts[..i] == ts;
  }

  class TaskManager {
    var tasks: seq<Task>
    var nextId: int
    /** Every id handed out so far, including those of removed tasks. */
    ghost var issued: set<int>

    ghost predicate Valid()
      reads this
    {
      WellFormed(tasks, nextId, issued)
    }

    constructor ()
      ensures Valid()
      ensures tasks == [] && nextId == 1 && issued == {}
    {
      tasks := [];
      nextId := 1;
      issued := {};
    }

    method Add(title: string) returns (task: Task)
      requires Valid()
      modifies this
      ensures Valid()
      ensures task == Task(old(nextId), Trim(title), false)
      ensures task.id !in old(issued) && issued == old(issued) + {task.id}
      ensures nextId == old(nextId) + 1
      ensures tasks == old(tasks) + [task]
    {
      task := Task(nextId, Trim(title), false);
      AppendKeepsWellFormed(tasks, task, issued);
      nextId := nextId + 1;
      issued := issued + {task.id};
      tasks := tasks + [task];
    }

    method Remove(id: int) returns (removed: bool)
      requires Valid()
      modifies this
      ensures Valid()
      ensures nextId == old(nextId) && issued == old(issued)
      ensures removed == HasId(old(tasks), id)
      ensures tasks == Without(old(tasks), id)
    {
      var kept;
      kept, removed := RemoveMatching(tasks, id);
      WithoutKeepsWellFormed(tasks, id, nextId, issued);
      tasks := kept;
    }

    method List() returns (all: seq<Task>)
      ensures all == tasks
    {
      all := tasks;
    }

    method MarkDone(id: int, value: bool := true) returns (found: bool)
      requires Valid()
      modifies this
      ensures Valid()
      ensures nextId == old(nextId) && issued == old(issued)
      ensures found == HasId(old(tasks), id)
      ensures tasks == SetDone(old(tasks), id, value)
    {
      SetDoneKeepsWellFormed(tasks, id, value, nextId, issued);
      var k := FindFirst(tasks, id);
      match k {
        case None =>
          found := false;
        case Some(i) =>
          tasks := tasks[i := tasks[i].(done := value)];
          found := true;
      }
    }

    method IsEmpty() returns (empty: bool)
      ensures empty <==> |tasks| == 0
    {
      empty := |tasks| == 0;
    }
  }

  /** Removal keeps exactly the tasks whose id differs. */
  lemma {:induction false} WithoutMember(ts: seq<Task>, id: int, x: Task)
    ensures x in Without(ts, id) <==> x in ts && x.id != id
  {
    if ts != [] {
      var init := ts[..|ts| - 1];
      WithoutMember(init, id, x);
      assert ts == init + [ts[|ts| - 1]];
    }
  }

  /** Removing an id no task carries changes nothing. */
  lemma {:induction false} WithoutAbsent(ts: seq<Task>, id: int)
    requires !HasId(ts, id)
    ensures Without(ts, id) == ts
  {
    if ts != [] {
      var init := ts[..|ts| - 1];
      forall j | 0 <= j < |init| ensures init[j].id != id {
        assert init[j] == ts[j];
      }
      WithoutAbsent(init, id);
      assert init + [ts[|ts| - 1]] == ts;
    }
  }

  /** Removal works piecewise, so the survivors keep their relative order. */
  lemma {:induction false} WithoutConcat(a: seq<Task>, b: seq<Task>, id: int)
    ensures Without(a + b, id) == Without(a, id) + Without(b, id)
  {
    if b == [] {
      assert a + b == a;
    } else {
      var ab := a + b;
      assert ab[..|ab| - 1] == a + b[..|b| - 1];
      assert ab[|ab| - 1] == b[|b| - 1];
      WithoutConcat(a, b[..|b| - 1], id);
    }
  }

  /** Appending a task whose id exceeds every id keeps ids increasing. */
  lemma AppendIncreasing(ts: seq<Task>, t: Task)
    requires IdsIncreasing(ts)
    requires forall k :: 0 <= k < |ts| ==> ts[k].id < t.id
    ensures IdsIncreasing(ts + [t])
  {
  }

  /** Removal keeps ids increasing: the survivors are a subsequence. */
  lemma {:induction false} WithoutIncreasing(ts: seq<Task>, id: int)
    requires IdsIncreasing(ts)
    ensures IdsIncreasing(Without(ts, id))
  {
    if ts != [] {
      var init, last := ts[..|ts| - 1], ts[|ts| - 1];
      assert IdsIncreasing(init) by {
        forall i, j | 0 <= i < j < |init| ensures init[i].id < init[j].id {
          assert init[i] == ts[i] && init[j] == ts[j];
        }
      }
      WithoutIncreasing(init, id);
      var w := Without(init, id);
      if last.id != id {
        forall k | 0 <= k < |w| ensures w[k].id < last.id {
          WithoutMember(init, id, w[k]);
          var m :| 0 <= m < |init| && init[m] == w[k];
          assert init[m] == ts[m];
        }
        AppendIncreasing(w, last);
      }
    }
  }

  /** `remove` keeps the store invariant. */
  lemma WithoutKeepsWellFormed(ts: seq<Task>, id: int, nextId: int, issued: set<int>)
    requires WellFormed(ts, nextId, issued)
    ensures WellFormed(Without(ts, id), nextId, issued)
  {
    WithoutIncreasing(ts, id);
    var r := Without(ts, id);
    forall k | 0 <= k < |r|
      ensures 1 <= r[k].id < nextId && NoEdgeWhitespace(r[k].title) && r[k].id in issued
    {
      WithoutMember(ts, id, r[k]);
    }
  }

  /** `add` keeps the store invariant: the new id is the counter itself. */
  lemma AppendKeepsWellFormed(ts: seq<Task>, t: Task, issued: set<int>)
    requires WellFormed(ts, t.id, issued) && NoEdgeWhitespace(t.title)
    ensures WellFormed(ts + [t], t.id + 1, issued + {t.id})
  {
  }

  /** With unique ids, `remove` takes out the one task with that id and
      nothing else, and an absent id leaves the list alone. */
  lemma WithoutExact(ts: seq<Task>, id: int)
    requires IdsIncreasing(ts)
    ensures !HasId(Without(ts, id), id)
    ensures HasId(ts, id) ==> exists k :: 0 <= k < |ts| && ts[k].id == id &&
                                          Without(ts, id) == ts[..k] + ts[k + 1..]
    ensures !HasId(ts, id) ==> Without(ts, id) == ts
  {
    var r := Without(ts, id);
    forall k | 0 <= k < |r| ensures r[k].id != id {
      WithoutMember(ts, id, r[k]);
    }
    if HasId(ts, id) {
      var k :| 0 <= k < |ts| && ts[k].id == id;
      IncreasingUnique(ts, k);
      WithoutAt(ts, k);
    } else {
      WithoutAbsent(ts, id);
    }
  }

  /** When the id at index k occurs nowhere else, removing it takes out
      exactly that one task. */
  lemma WithoutAt(ts: seq<Task>, k: nat)
    requires k < |ts| && !HasId(ts[..k], ts[k].id) && !HasId(ts[k + 1..], ts[k].id)
    ensures Without(ts, ts[k].id) == ts[..k] + ts[k + 1..]
  {
    var before, x, after := ts[..k], ts[k], ts[k + 1..];
    assert ts == before + ([x] + after) by {
      assert ts[k..] == [x] + after;
    }
    WithoutDropsOne(before, x, after);
  }

  /** With increasing ids, the id at index k occurs nowhere else. */
  lemma IncreasingUnique(ts: seq<Task>, k: nat)
    requires IdsIncreasing(ts) && k < |ts|
    ensures !HasId(ts[..k], ts[k].id) && !HasId(ts[k + 1..], ts[k].id)
  {
    var before, after := ts[..k], ts[k + 1..];
    forall j | 0 <= j < |before| ensures before[j].id != ts[k].id {
      assert before[j] == ts[j];
    }
    forall j | 0 <= j < |after| ensures after[j].id != ts[k].id {
      assert after[j] == ts[k + 1 + j];
    }
  }

  lemma WithoutDropsOne(before: seq<Task>, x: Task, after: seq<Task>)
    requires !HasId(before, x.id) && !HasId(after, x.id)
    ensures Without(before + ([x] + after), x.id) == before + after
  {
    var id := x.id;
    var rest := [x] + after;
    assert Without(rest, id) == after by {
      WithoutConcat([x], after, id);
      WithoutSingle(x, id);
      WithoutAbsent(after, id);
    }
    assert Without(before, id) == before by {
      WithoutAbsent(before, id);
    }
    WithoutConcat(before, rest, id);
  }

  lemma WithoutSingle(x: Task, id: int)
    ensures Without([x], id) == if x.id == id then [] else [x]
  {
    assert [x][..0] == [];
  }

  /** `markDone` keeps the store invariant: it touches no id and no title. */
  lemma SetDoneKeepsWellFormed(ts: seq<Task>, id: int, value: bool, nextId: int, issued: set<int>)
    requires WellFormed(ts, nextId, issued)
    ensures WellFormed(SetDone(ts, id, value), nextId, issued)
  {
  }

  /** The first match depends on the ids alone. */
  lemma {:induction false} FirstIndexSameIds(a: seq<Task>, b: seq<Task>, id: int)
    requires |a| == |b| && forall k :: 0 <= k < |a| ==> a[k].id == b[k].id
    ensures FirstIndex(a, id) == FirstIndex(b, id)
  {
    if a != [] && a[0].id != id {
      FirstIndexSameIds(a[1..], b[1..], id);
    }
  }

  /** Toggling an existing id flips its flag, and only its flag. */
  lemma ToggleFlips(ts: seq<Task>, id: int, i: nat)
    requires FirstIndex(ts, id) == Some(i)
    ensures |Toggled(ts, id)| == |ts|
    ensures Toggled(ts, id)[i] == ts[i].(done := !ts[i].done)
    ensures forall k :: 0 <= k < |ts| && k != i ==> Toggled(ts, id)[k] == ts[k]
  {
  }

  /** Toggling an absent id changes nothing, and toggling the same id twice
      restores the list. */
  lemma ToggleTwice(ts: seq<Task>, id: int)
    ensures FirstIndex(ts, id).None? ==> Toggled(ts, id) == ts
    ensures Toggled(Toggled(ts, id), id) == ts
  {
    match FirstIndex(ts, id)
    case None =>
    case Some(i) =>
      var once := Toggled(ts, id);
      FirstIndexSameIds(ts, once, id);
      assert once == ts[i := ts[i].(done := !ts[i].done)];
      assert Toggled(once, id) == once[i := once[i].(done := !once[i].done)];
  }
}
