/** The named tasks of a session and whether they run. */
module Tasks {
  import opened Common
  import opened OrderedMap
  import opened Sorting

  type TaskMap = OMap<bool>

  predicate IsRunning(tasks: TaskMap, name: string) {
    Get(tasks, name) == Some(true)
  }

  /** The names of the running tasks, in order. */
  function RunningNames(tasks: TaskMap): seq<string> {
    if tasks == [] then [] else
    var n := |tasks| - 1;
    RunningNames(tasks[..n]) + (if tasks[n].1 then [tasks[n].0] else [])
  }

  lemma {:induction false} RunningNamesListed(tasks: TaskMap)
    ensures forall name :: name in RunningNames(tasks) <==> exists i :: 0 <= i < |tasks| && tasks[i] == (name, true)
  {
    if tasks != [] {
      var n := |tasks| - 1;
      RunningNamesListed(tasks[..n]);
      forall name
        ensures name in RunningNames(tasks) <==> exists i :: 0 <= i < |tasks| && tasks[i] == (name, true)
      {
        if name in RunningNames(tasks[..n]) {
          var i :| 0 <= i < n && tasks[..n][i] == (name, true);
          assert tasks[i] == (name, true);
        }
        if i :| 0 <= i < |tasks| && tasks[i] == (name, true) {
          if i < n {
            assert tasks[..n][i] == (name, true);
          } else {
            assert tasks[n] == (name, true);
          }
        }
      }
    }
  }

  /** Exactly the running tasks, each once. */
  lemma {:induction false} RunningNamesExact(tasks: TaskMap)
    requires Ordered(tasks)
    ensures NoDup(RunningNames(tasks))
    ensures forall name :: name in RunningNames(tasks) <==> IsRunning(tasks, name)
  {
    RunningNamesListed(tasks);
    forall name ensures name in RunningNames(tasks) <==> IsRunning(tasks, name) {
      GetMember(tasks, name);
    }
    if tasks != [] {
      var n := |tasks| - 1;
      RunningNamesExact(tasks[..n]);
      RunningNamesListed(tasks[..n]);
      if tasks[n].1 {
        NoDupSnoc(RunningNames(tasks[..n]), tasks[n].0);
      }
    }
  }

  ghost predicate Ascending(names: seq<string>) {
    forall i, j :: 0 <= i < j < |names| ==> StringLe(names[i], names[j])
  }

  lemma AscendingSnoc(names: seq<string>, name: string)
    requires Ascending(names) && forall x :: x in names ==> StringLe(x, name)
    ensures Ascending(names + [name])
  {
    assert forall i :: 0 <= i < |names| ==> names[i] in names;
  }

  /** ... in the order of their names. */
  lemma {:induction false} RunningNamesAscend(tasks: TaskMap)
    requires Ordered(tasks)
    ensures Ascending(RunningNames(tasks))
  {
    if tasks != [] {
      var n := |tasks| - 1;
      RunningNamesAscend(tasks[..n]);
      RunningNamesListed(tasks[..n]);
      forall name | name in RunningNames(tasks[..n]) ensures StringLe(name, tasks[n].0) {
        var i :| 0 <= i < n && tasks[..n][i] == (name, true);
        assert tasks[i] == (name, true);
      }
      AscendingSnoc(RunningNames(tasks[..n]), tasks[n].0);
      assert RunningNames(tasks[..n]) + [] == RunningNames(tasks[..n]);
    }
  }

  /** `names` are the running tasks, each once and in order. */
  ghost predicate ListsRunning(names: seq<string>, tasks: TaskMap) {
    NoDup(names) && Ascending(names) && forall name :: name in names <==> IsRunning(tasks, name)
  }

  lemma RunningNamesList(tasks: TaskMap)
    requires Ordered(tasks)
    ensures ListsRunning(RunningNames(tasks), tasks)
  {
    RunningNamesExact(tasks);
    RunningNamesAscend(tasks);
  }

  method ListRunning(tasks: TaskMap) returns (names: seq<string>)
    ensures names == RunningNames(tasks)
  {
    names := [];
    for i := 0 to |tasks|
      invariant names == RunningNames(tasks[..i])
    {
      TakeSnoc(tasks, i);
      if tasks[i].1 {
        names := names + [tasks[i].0];
      }
    }
    assert tasks[..|tasks|] == tasks;
  }

  class TaskSupervisor {
    var tasks: TaskMap

    ghost predicate Valid()
      reads this
    {
      Ordered(tasks)
    }

    constructor ()
      ensures Valid() && tasks == []
    {
      tasks := [];
    }

    /** Whether the task was not running before. */
    method Start(name: string) returns (r: Result<bool>)
      requires Valid()
      modifies this
      ensures Valid()
      ensures r == if name == "" then Err(Args) else Ok(!old(IsRunning(tasks, name)))
      ensures r.Err? ==> tasks == old(tasks)
      ensures r.Ok? ==> forall x :: Get(tasks, x) == if x == name then Some(true) else old(Get(tasks, x))
      ensures tasks == if name == "" then old(tasks) else Put(old(tasks), name, true)
    {
      if name == "" {
        return Err(Args);
      }
      var was := Get(tasks, name);
      forall x ensures Get(Put(tasks, name, true), x) == if x == name then Some(true) else Get(tasks, x) {
        PutGet(tasks, name, true, x);
      }
      PutOrdered(tasks, name, true);
      tasks := Put(tasks, name, true);
      return Ok(was != Some(true));
    }

    /** Whether the task was running before. */
    method Stop(name: string) returns (r: Result<bool>)
      requires Valid()
      modifies this
      ensures Valid()
      ensures r == if name == "" then Err(Args) else Ok(old(IsRunning(tasks, name)))
      ensures tasks == if r == Ok(true) then Put(old(tasks), name, false) else old(tasks)
      ensures forall x :: IsRunning(tasks, x) <==> old(IsRunning(tasks, x)) && (r.Ok? ==> x != name)
    {
      if name == "" {
        return Err(Args);
      }
      if Get(tasks, name) != Some(true) {
        return Ok(false);
      }
      forall x ensures Get(Put(tasks, name, false), x) == if x == name then Some(false) else Get(tasks, x) {
        PutGet(tasks, name, false, x);
      }
      PutOrdered(tasks, name, false);
      tasks := Put(tasks, name, false);
      return Ok(true);
    }

    /** Forgets all tasks and names the ones that were running. */
    method StopAll() returns (stopped: seq<string>)
      requires Valid()
      modifies this
      ensures Valid() && tasks == []
      ensures stopped == RunningNames(old(tasks)) && ListsRunning(stopped, old(tasks))
    {
      RunningNamesList(tasks);
      stopped := ListRunning(tasks);
      tasks := [];
    }
  }
}
