/**
 * The JSON-file task store (managers/task_manager.py) over an in-memory
 * sequence. Every operation of the source loads the whole file, changes
 * the list and writes it back; here the list is the state, passed in and
 * returned.
 */
module TaskManager {
  import opened Wrappers
  import opened Payload
  import opened TaskModel

  /** Some stored task carries `id`. */
  predicate HasId(ts: seq<Task>, id: int) {
    exists i :: 0 <= i < |ts| && ts[i].id == Some(id)
  }

  /** No two stored tasks share an id, as the constructor's docstring ("Identificador único") intends. */
  predicate UniqueIds(ts: seq<Task>) {
    forall i, j :: 0 <= i < j < |ts| && ts[i].id.Some? ==> ts[i].id != ts[j].id
  }

  /** Every stored task has an id. */
  predicate AllIdsSet(ts: seq<Task>) {
    forall i :: 0 <= i < |ts| ==> ts[i].id.Some?
  }

  /** The largest id present, or None when no task has one. */
  function MaxId(ts: seq<Task>): (m: Option<int>)
    ensures m.None? <==> forall i :: 0 <= i < |ts| ==> ts[i].id.None?
    ensures m.Some? ==> exists i :: 0 <= i < |ts| && ts[i].id == m
    ensures m.Some? ==> forall i :: 0 <= i < |ts| && ts[i].id.Some? ==> ts[i].id.value <= m.value
  {
    if |ts| == 0 then None
    else
      var rest := MaxId(ts[1..]);
      assert forall i :: 1 <= i < |ts| ==> ts[i] == ts[1..][i - 1];
      match ts[0].id
      case None => rest
      case Some(k) =>
        if rest.Some? && rest.value > k then rest else Some(k)
  }

  /**
   * `get_next_id`: 1 for an empty store, otherwise one more than the
   * largest id. A non-empty store in which no task has an id makes
   * Python's `max` fail on an empty sequence; that failure is None here.
   */
  function NextId(ts: seq<Task>): (n: Option<int>)
    ensures |ts| == 0 ==> n == Some(1)
    ensures n.None? <==> |ts| > 0 && forall i :: 0 <= i < |ts| ==> ts[i].id.None?
    ensures n.Some? ==> !HasId(ts, n.value)
    ensures n.Some? ==> forall i :: 0 <= i < |ts| && ts[i].id.Some? ==> ts[i].id.value < n.value
    ensures n.Some? && |ts| > 0 ==> HasId(ts, n.value - 1)
  {
    if |ts| == 0 then Some(1)
    else
      match MaxId(ts)
      case None => None
      case Some(m) => Some(m + 1)
  }

  /** The position of the first task carrying `id`. */
  function FindIndex(ts: seq<Task>, id: int): (k: Option<nat>)
    ensures k.None? <==> !HasId(ts, id)
    ensures k.Some? ==> k.value < |ts| && ts[k.value].id == Some(id)
    ensures k.Some? ==> forall j :: 0 <= j < k.value ==> ts[j].id != Some(id)
  {
    if |ts| == 0 then None
    else if ts[0].id == Some(id) then Some(0)
    else
      match FindIndex(ts[1..], id)
      case None =>
        assert forall i :: 1 <= i < |ts| ==> ts[i] == ts[1..][i - 1];
        None
      case Some(j) => Some(j + 1)
  }

  /** `get_task_by_id`: the first task whose id matches, or None. */
  function GetById(ts: seq<Task>, id: int): (r: Option<Task>)
    ensures r.None? <==> !HasId(ts, id)
    ensures r.Some? ==> r.value.id == Some(id)
    ensures r.Some? ==> exists i :: 0 <= i < |ts| && ts[i] == r.value
                                    && forall j :: 0 <= j < i ==> ts[j].id != Some(id)
  {
    match FindIndex(ts, id)
    case None => None
    case Some(i) => Some(ts[i])
  }

  /** The result of `add_task`: the new list and the task as stored, or the failure of `get_next_id`. */
  datatype AddOutcome = Added(tasks: seq<Task>, task: Task) | NextIdFailed

  /**
   * `add_task`: a task without id receives `get_next_id()`; a task that
   * already has one is appended as it is, with no uniqueness check.
   */
  function AddTask(ts: seq<Task>, t: Task): (r: AddOutcome)
    ensures r.NextIdFailed? <==> t.id.None? && NextId(ts).None?
    ensures r.Added? ==> r.tasks == ts + [r.task]
    ensures r.Added? && t.id.Some? ==> r.task == t
    ensures r.Added? && t.id.None? ==> r.task == t.(id := r.task.id) && r.task.id.Some? && !HasId(ts, r.task.id.value)
    ensures r.Added? && t.id.None? ==> NextId(ts) == r.task.id
  {
    if t.id.Some? then Added(ts + [t], t)
    else
      match NextId(ts)
      case None => NextIdFailed
      case Some(n) =>
        var stored := t.(id := Some(n));
        Added(ts + [stored], stored)
  }

  /** The result of `update_task` and `delete_task`: whether it changed anything, and the list. */
  datatype Change = Change(ok: bool, tasks: seq<Task>)

  /** The record `update_task` writes over the old one: the id forced, the old date kept only when the new one is empty. */
  function Replacement(prev: Task, id: int, u: Task): Task {
    u.(id := Some(id), fechaCreacion := if u.fechaCreacion == "" then prev.fechaCreacion else u.fechaCreacion)
  }

  /**
   * `update_task`: the FIRST task with the id is replaced by the whole new
   * record (a replacement, not a merge). An unknown id changes nothing.
   */
  function UpdateTask(ts: seq<Task>, id: int, u: Task): (r: Change)
    ensures r.ok <==> HasId(ts, id)
    ensures !r.ok ==> r.tasks == ts
    ensures |r.tasks| == |ts|
    ensures r.ok ==> exists i :: 0 <= i < |ts| && ts[i].id == Some(id)
                      && (forall j :: 0 <= j < i ==> ts[j].id != Some(id))
                      && r.tasks == ts[i := Replacement(ts[i], id, u)]
    ensures r.ok ==> GetById(r.tasks, id) == Some(Replacement(GetById(ts, id).value, id, u))
  {
    match FindIndex(ts, id)
    case None => Change(false, ts)
    case Some(i) =>
      FindAfterReplace(ts, id, i, Replacement(ts[i], id, u));
      Change(true, ts[i := Replacement(ts[i], id, u)])
  }

  /** The list with every task carrying `id` removed, the others kept in order. */
  function Without(ts: seq<Task>, id: int): (r: seq<Task>)
    ensures forall t :: t in r <==> t in ts && t.id != Some(id)
    ensures |r| <= |ts|
    ensures |r| == |ts| <==> !HasId(ts, id)
  {
    if |ts| == 0 then []
    else
      var rest := Without(ts[1..], id);
      assert forall i :: 1 <= i < |ts| ==> ts[i] == ts[1..][i - 1];
      assert forall t :: t in ts <==> t == ts[0] || t in ts[1..];
      if ts[0].id == Some(id) then rest else [ts[0]] + rest
  }

  /**
   * `delete_task`: removes every task with the id and reports whether one
   * was removed; when none was, nothing is written.
   */
  function DeleteTask(ts: seq<Task>, id: int): (r: Change)
    ensures r.ok <==> HasId(ts, id)
    ensures !r.ok ==> r.tasks == ts
    ensures !HasId(r.tasks, id)
    ensures forall t :: t in r.tasks <==> t in ts && t.id != Some(id)
    ensures r.tasks == Without(ts, id)
  {
    var kept := Without(ts, id);
    if |kept| < |ts| then Change(true, kept)
    else
      WithoutAbsent(ts, id);
      Change(false, ts)
  }

  // ---------------------------------------------------------------------
  // Properties relating several operations
  // ---------------------------------------------------------------------

  /** Removal works piecewise, so it keeps the surviving tasks in their original order. */
  lemma {:induction false} WithoutConcat(a: seq<Task>, b: seq<Task>, id: int)
    ensures Without(a + b, id) == Without(a, id) + Without(b, id)
  {
    if |a| == 0 {
      assert a + b == b;
    } else {
      assert (a + b)[1..] == a[1..] + b;
      WithoutConcat(a[1..], b, id);
    }
  }

  /** Removing an id no task carries leaves the list as it was. */
  lemma {:induction false} WithoutAbsent(ts: seq<Task>, id: int)
    requires !HasId(ts, id)
    ensures Without(ts, id) == ts
  {
    if |ts| > 0 {
      assert !HasId(ts[1..], id) by {
        forall i | 0 <= i < |ts[1..]| ensures ts[1..][i].id != Some(id) {
          assert ts[1..][i] == ts[i + 1];
        }
      }
      assert ts[0].id != Some(id);
      WithoutAbsent(ts[1..], id);
      calc {
        Without(ts, id);
        [ts[0]] + Without(ts[1..], id);
        [ts[0]] + ts[1..];
        ts;
      }
    }
  }

  /** Adding a task without id keeps the ids unique; the new id is fresh. */
  lemma AddWithoutIdKeepsUnique(ts: seq<Task>, t: Task)
    requires UniqueIds(ts)
    requires t.id.None?
    requires AddTask(ts, t).Added?
    ensures UniqueIds(AddTask(ts, t).tasks)
  {
  }

  /** Replacing a record keeps the ids unique, since the replacement takes over the id it replaces. */
  lemma UpdateKeepsUnique(ts: seq<Task>, id: int, u: Task)
    requires UniqueIds(ts)
    ensures UniqueIds(UpdateTask(ts, id, u).tasks)
  {
  }

  /** A subsequence of a list with unique ids has unique ids. */
  lemma {:induction false} WithoutKeepsUnique(ts: seq<Task>, id: int)
    requires UniqueIds(ts)
    ensures UniqueIds(Without(ts, id))
  {
    if |ts| > 0 {
      var tail := ts[1..];
      assert UniqueIds(tail) by {
        forall i, j | 0 <= i < j < |tail| && tail[i].id.Some? ensures tail[i].id != tail[j].id {
          assert tail[i] == ts[i + 1] && tail[j] == ts[j + 1];
        }
      }
      WithoutKeepsUnique(tail, id);
      var rest := Without(tail, id);
      if ts[0].id != Some(id) {
        var r := [ts[0]] + rest;
        forall i, j | 0 <= i < j < |r| && r[i].id.Some? ensures r[i].id != r[j].id {
          if i == 0 {
            assert r[j] in rest;
            assert r[j] in tail;
            var k :| 0 <= k < |tail| && tail[k] == r[j];
            assert ts[k + 1] == r[j];
          } else {
            assert r[i] == rest[i - 1] && r[j] == rest[j - 1];
          }
        }
      }
    }
  }

  /** Deleting keeps the ids unique. */
  lemma DeleteKeepsUnique(ts: seq<Task>, id: int)
    requires UniqueIds(ts)
    ensures UniqueIds(DeleteTask(ts, id).tasks)
  {
    WithoutKeepsUnique(ts, id);
  }

  /**
   * A task that already carries an id is appended even when another task
   * has that id, so ids stop being unique.
   */
  lemma AddWithPresetIdCanDuplicate(now: string)
    requires now != ""
    ensures var t := New(now, Some(1), Some("a"));
            var r := AddTask([t], t);
            r.Added? && UniqueIds([t]) && !UniqueIds(r.tasks)
  {
    var t := New(now, Some(1), Some("a"));
    var r := AddTask([t], t);
    assert r.tasks[0].id == r.tasks[1].id;
  }

  /**
   * Ids can be reused. After the task with the largest id is deleted, the
   * next task added gets that same id exactly when the largest remaining
   * id is one less (or nothing remains and the deleted id was 1).
   */
  lemma DeletedMaxIdReuse(ts: seq<Task>, t: Task, id: int)
    requires AllIdsSet(ts) && HasId(ts, id)
    requires forall i :: 0 <= i < |ts| ==> ts[i].id.value <= id
    requires t.id.None?
    ensures var kept := Without(ts, id);
            var r := AddTask(DeleteTask(ts, id).tasks, t);
            && r.Added?
            && (r.task.id == Some(id) <==> (kept == [] && id == 1) || HasId(kept, id - 1))
  {
    var kept := Without(ts, id);
    DeleteKeepsIdsSet(ts, id);
    assert forall i :: 0 <= i < |kept| ==> kept[i].id.value < id by {
      forall i | 0 <= i < |kept| ensures kept[i].id.value < id {
        assert kept[i] in ts;
      }
    }
  }

  /** With ids {1, 5}, deleting 5 and adding hands out 2, not 5. */
  lemma DeletedMaxIdNotAlwaysReused(now: string)
    requires now != ""
    ensures var ts := [New(now, Some(1), Some("a")), New(now, Some(5), Some("b"))];
            AddTask(DeleteTask(ts, 5).tasks, New(now, None, Some("c"))).task.id == Some(2)
  {
    var ts := [New(now, Some(1), Some("a")), New(now, Some(5), Some("b"))];
    assert DeleteTask(ts, 5).tasks == [ts[0]];
  }

  /** With ids {1, 3}, the next id is 4. */
  lemma NextIdAfterGap(now: string)
    requires now != ""
    ensures NextId([New(now, Some(1), Some("a")), New(now, Some(3), Some("b"))]) == Some(4)
  {
    var ts := [New(now, Some(1), Some("a")), New(now, Some(3), Some("b"))];
    assert ts[1..][1..] == [];
    assert MaxId(ts[1..]) == Some(3);
  }

  /** When every stored task has an id, adding cannot fail and the new list has ids throughout. */
  lemma AddKeepsIdsSet(ts: seq<Task>, t: Task)
    requires AllIdsSet(ts)
    ensures AddTask(ts, t).Added? && AllIdsSet(AddTask(ts, t).tasks)
  {
  }

  /** Deleting from a list whose tasks all have ids leaves such a list. */
  lemma DeleteKeepsIdsSet(ts: seq<Task>, id: int)
    requires AllIdsSet(ts)
    ensures AllIdsSet(DeleteTask(ts, id).tasks)
  {
  }

  /** Writing a task with the id at the first position carrying it keeps that position the first. */
  lemma FindAfterReplace(ts: seq<Task>, id: int, i: nat, x: Task)
    requires FindIndex(ts, id) == Some(i)
    requires x.id == Some(id)
    ensures FindIndex(ts[i := x], id) == Some(i)
  {
    var ts' := ts[i := x];
    assert ts'[i].id == Some(id);
    assert forall j :: 0 <= j < i ==> ts'[j] == ts[j];
  }

  // ---------------------------------------------------------------------
  // Persistence: the file holds the list of `to_dict` images
  // ---------------------------------------------------------------------

  /** `save_tasks`: the JSON array written to the file. */
  function Save(ts: seq<Task>): (ds: seq<Dict>)
    ensures |ds| == |ts|
    ensures forall i :: 0 <= i < |ts| ==> ds[i] == ToDict(ts[i])
  {
    seq(|ts|, i requires 0 <= i < |ts| => ToDict(ts[i]))
  }

  /** `load_tasks` on a readable file: each dictionary through `from_dict`. */
  function Load(ds: seq<Dict>, now: string): (ts: seq<Task>)
    requires now != ""
    ensures |ts| == |ds|
    ensures forall i :: 0 <= i < |ds| ==> ts[i] == FromDict(ds[i], now)
  {
    seq(|ds|, i requires 0 <= i < |ds| => FromDict(ds[i], now))
  }

  /** Every stored task carries a non-empty creation date. */
  predicate Dated(ts: seq<Task>) {
    forall i :: 0 <= i < |ts| ==> ts[i].fechaCreacion != ""
  }

  /** Writing the list and reading it back yields the same list, in the same order. */
  lemma LoadSave(ts: seq<Task>, now: string)
    requires now != ""
    requires Dated(ts)
    ensures Load(Save(ts), now) == ts
  {
  }
}
