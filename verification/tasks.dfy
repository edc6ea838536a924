/**
 * The list transformations behind the App component's handlers: the spread
 * append of addTask, the `tasks.map` of toggleComplete and the `tasks.filter`
 * of deleteTask. Ids come from a clock and are not assumed unique, so toggle
 * and delete act on every task whose id matches.
 */
module Tasks {
  import opened Whitespace

  datatype Task = Task(id: int, text: string, completed: bool)

  /** The same task with its completed flag negated. */
  function Flip(t: Task): Task {
    t.(completed := !t.completed)
  }

  predicate HasId(tasks: seq<Task>, id: int) {
    exists i :: 0 <= i < |tasks| && tasks[i].id == id
  }

  /** Number of tasks carrying `id`. */
  function CountId(tasks: seq<Task>, id: int): (n: nat)
    ensures n <= |tasks|
  {
    if tasks == [] then 0
    else (if tasks[0].id == id then 1 else 0) + CountId(tasks[1..], id)
  }

  /** `a` is `b` with some elements left out, the rest in their original order. */
  predicate IsSubsequence(a: seq<Task>, b: seq<Task>)
    decreases |b|
  {
    if a == [] then true
    else if b == [] then false
    else (a[0] == b[0] && IsSubsequence(a[1..], b[1..])) || IsSubsequence(a, b[1..])
  }

  /** Every stored task has text that is not blank. */
  predicate AllNonBlank(tasks: seq<Task>) {
    forall i :: 0 <= i < |tasks| ==> !IsBlank(tasks[i].text)
  }

  // ---------------------------------------------------------------------------
  // The three list operations

  /** The list with a new uncompleted task appended at the end. */
  function Add(tasks: seq<Task>, id: int, text: string): (r: seq<Task>)
    ensures |r| == |tasks| + 1
    ensures r[..|tasks|] == tasks
    ensures r[|tasks|].id == id && r[|tasks|].text == text && !r[|tasks|].completed
  {
    tasks + [Task(id, text, false)]
  }

  /**
   * The list with the completed flag negated on every task whose id is `id`:
   * same length and order, every id and text kept, and the completed flag
   * negated exactly at the positions whose id is `id`.
   */
  function Toggle(tasks: seq<Task>, id: int): (r: seq<Task>)
    ensures |r| == |tasks|
    ensures forall i :: 0 <= i < |tasks| ==>
              && r[i].id == tasks[i].id
              && r[i].text == tasks[i].text
              && (r[i].completed != tasks[i].completed <==> tasks[i].id == id)
  {
    if tasks == [] then []
    else [if tasks[0].id == id then Flip(tasks[0]) else tasks[0]] + Toggle(tasks[1..], id)
  }

  /**
   * The tasks whose id differs from `id`, in their order: no task with `id` is left, every task
   * with another id is kept, and exactly the tasks with `id` are dropped.
   */
  function Delete(tasks: seq<Task>, id: int): (r: seq<Task>)
    ensures forall t :: t in r <==> t in tasks && t.id != id
    ensures |r| == |tasks| - CountId(tasks, id)
  {
    if tasks == [] then []
    else if tasks[0].id == id then Delete(tasks[1..], id)
    else [tasks[0]] + Delete(tasks[1..], id)
  }

  /**
   * No task carries `id` exactly when the count of tasks carrying it is zero:
   * the count that Delete removes and the absence that makes toggle and
   * delete no-ops are the same condition.
   */
  lemma {:induction false} CountIdZeroIffAbsent(tasks: seq<Task>, id: int)
    ensures CountId(tasks, id) == 0 <==> !HasId(tasks, id)
  {
    if tasks != [] {
      CountIdZeroIffAbsent(tasks[1..], id);
      if HasId(tasks[1..], id) {
        var i :| 0 <= i < |tasks| - 1 && tasks[1..][i].id == id;
        assert tasks[i + 1].id == id;
      }
      if HasId(tasks, id) && tasks[0].id != id {
        var i :| 0 <= i < |tasks| && tasks[i].id == id;
        assert tasks[1..][i - 1].id == id;
      }
    }
  }

  // ---------------------------------------------------------------------------
  // toggleComplete

  /** Toggling the same id twice gives back the original list. */
  lemma {:induction false} ToggleInvolution(tasks: seq<Task>, id: int)
    ensures Toggle(Toggle(tasks, id), id) == tasks
  {
    if tasks != [] {
      ToggleInvolution(tasks[1..], id);
      var t := Toggle(tasks, id);
      assert t[1..] == Toggle(tasks[1..], id);
    }
  }

  /** Toggling an id that no task carries changes nothing. */
  lemma {:induction false} ToggleAbsent(tasks: seq<Task>, id: int)
    requires !HasId(tasks, id)
    ensures Toggle(tasks, id) == tasks
  {
    if tasks != [] {
      assert tasks[0].id != id;
      assert !HasId(tasks[1..], id) by {
        forall i | 0 <= i < |tasks| - 1 ensures tasks[1..][i].id != id {
          assert tasks[1..][i] == tasks[i + 1];
        }
      }
      ToggleAbsent(tasks[1..], id);
    }
  }

  // ---------------------------------------------------------------------------
  // deleteTask

  /** The list left by Delete keeps the original relative order. */
  lemma {:induction false} DeleteIsSubsequence(tasks: seq<Task>, id: int)
    ensures IsSubsequence(Delete(tasks, id), tasks)
  {
    if tasks != [] {
      DeleteIsSubsequence(tasks[1..], id);
      var r := Delete(tasks, id);
      if tasks[0].id == id {
        if r != [] {
          assert IsSubsequence(r, tasks[1..]);
        }
      } else {
        assert r[0] == tasks[0] && r[1..] == Delete(tasks[1..], id);
      }
    }
  }

  /** A subsequence avoiding `id` is at most as long as Delete's result. */
  lemma {:induction false} SubsequenceBound(a: seq<Task>, b: seq<Task>, id: int)
    requires IsSubsequence(a, b)
    requires forall t :: t in a ==> t.id != id
    ensures |a| <= |b| - CountId(b, id)
    decreases |b|
  {
    if a != [] {
      if a[0] == b[0] && IsSubsequence(a[1..], b[1..]) {
        SubsequenceBound(a[1..], b[1..], id);
        assert a[0] in a;
      } else {
        SubsequenceBound(a, b[1..], id);
      }
    }
  }

  /**
   * Delete is the only order-preserving selection of the tasks that avoids
   * `id` and keeps all the others: any such list equals Delete's result.
   */
  lemma {:induction false} DeleteUnique(a: seq<Task>, tasks: seq<Task>, id: int)
    requires IsSubsequence(a, tasks)
    requires forall t :: t in a ==> t.id != id
    requires |a| == |tasks| - CountId(tasks, id)
    ensures a == Delete(tasks, id)
    decreases |tasks|
  {
    if a != [] {
      if a[0] == tasks[0] && IsSubsequence(a[1..], tasks[1..]) {
        assert a[0] in a;
        DeleteUnique(a[1..], tasks[1..], id);
      } else {
        SubsequenceBound(a, tasks[1..], id);
        DeleteUnique(a, tasks[1..], id);
      }
    }
  }

  /** Deleting the same id twice is the same as deleting it once. */
  lemma {:induction false} DeleteIdempotent(tasks: seq<Task>, id: int)
    ensures Delete(Delete(tasks, id), id) == Delete(tasks, id)
  {
    if tasks != [] {
      DeleteIdempotent(tasks[1..], id);
    }
  }

  /** Deleting an id that no task carries changes nothing. */
  lemma {:induction false} DeleteAbsent(tasks: seq<Task>, id: int)
    requires !HasId(tasks, id)
    ensures Delete(tasks, id) == tasks
  {
    if tasks != [] {
      assert tasks[0].id != id;
      assert !HasId(tasks[1..], id) by {
        forall i | 0 <= i < |tasks| - 1 ensures tasks[1..][i].id != id {
          assert tasks[1..][i] == tasks[i + 1];
        }
      }
      DeleteAbsent(tasks[1..], id);
    }
  }

  // ---------------------------------------------------------------------------
  // How the operations relate

  /** Toggling and deleting commute, whichever ids they name. */
  lemma {:induction false} ToggleDeleteCommute(tasks: seq<Task>, a: int, b: int)
    ensures Delete(Toggle(tasks, a), b) == Toggle(Delete(tasks, b), a)
  {
    if tasks != [] {
      ToggleDeleteCommute(tasks[1..], a, b);
      var t := Toggle(tasks, a);
      assert t[1..] == Toggle(tasks[1..], a);
      if tasks[0].id != b {
        var d := Delete(tasks, b);
        assert d[1..] == Delete(tasks[1..], b);
      }
    }
  }

  /** Adding a task under a fresh id and then deleting that id undoes the add. */
  lemma DeleteUndoesAdd(tasks: seq<Task>, id: int, text: string)
    requires !HasId(tasks, id)
    ensures Delete(Add(tasks, id, text), id) == tasks
  {
    DeleteAbsent(tasks, id);
    DeleteAppend(tasks, [Task(id, text, false)], id);
  }

  /** Delete distributes over concatenation. */
  lemma {:induction false} DeleteAppend(a: seq<Task>, b: seq<Task>, id: int)
    ensures Delete(a + b, id) == Delete(a, id) + Delete(b, id)
  {
    if a == [] {
      assert a + b == b;
    } else {
      var ab := a + b;
      assert ab[0] == a[0] && ab[1..] == a[1..] + b;
      DeleteAppend(a[1..], b, id);
      var head := if a[0].id == id then [] else [a[0]];
      assert Delete(ab, id) == head + Delete(a[1..] + b, id);
      assert Delete(a, id) == head + Delete(a[1..], id);
    }
  }

  // ---------------------------------------------------------------------------
  // The non-blank invariant

  /** Add keeps every text non-blank when the added text is not blank. */
  lemma AddKeepsNonBlank(tasks: seq<Task>, id: int, text: string)
    requires AllNonBlank(tasks) && !IsBlank(text)
    ensures AllNonBlank(Add(tasks, id, text))
  {
    var r := Add(tasks, id, text);
    forall i | 0 <= i < |r| ensures !IsBlank(r[i].text) {
      if i < |tasks| {
        assert r[..|tasks|][i] == tasks[i];
      }
    }
  }

  /** Toggle leaves every text as it was. */
  lemma ToggleKeepsNonBlank(tasks: seq<Task>, id: int)
    requires AllNonBlank(tasks)
    ensures AllNonBlank(Toggle(tasks, id))
  {
  }

  /** Delete only drops tasks, so the texts left are non-blank. */
  lemma DeleteKeepsNonBlank(tasks: seq<Task>, id: int)
    requires AllNonBlank(tasks)
    ensures AllNonBlank(Delete(tasks, id))
  {
    var r := Delete(tasks, id);
    forall i | 0 <= i < |r| ensures !IsBlank(r[i].text) {
      assert r[i] in tasks;
    }
  }
}
