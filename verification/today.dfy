/**
 `getPlantsWithTodayTask`: the user's plants, each marked with whether a
 pending care task falls due inside today's window, and which one.

 The two queries become input sequences. The task query's filter (status
 `pending`, `due_at` between the window bounds inclusive, `user_plant_id`
 among the user's plant ids) is applied here to the task rows; the window
 bounds are parameters instead of readings of the device clock, and
 timestamps are integers.
 */
module TodayTasks {
  import opened Results
  import opened Errors

  datatype TaskStatus = Pending | Done

  /** A `care_tasks` row. */
  datatype CareTask = CareTask(id: string, userPlantId: string, dueAt: int, status: TaskStatus)

  /**
   The `plants` columns the user-plant query joins in. As in the rest of the
   model, the store may hold `null` in the name, species and location columns.
   */
  datatype PlantRow = PlantRow(
    id: string, slug: string, name: Option<string>, species: Option<string>, location: Option<string>,
    imageUrl: Option<string>, isHidden: bool, createdAt: string)

  /** A `user_plants` row with its joined plant. */
  datatype UserPlant = UserPlant(id: string, plant: PlantRow)

  /** The value stored per user plant in the task map. */
  datatype TaskInfo = TaskInfo(taskId: string, dueAt: int)

  /** One output record: the plant's columns, its user-plant id and today's task, if any. */
  datatype TodayPlant = TodayPlant(
    plant: PlantRow, userPlantId: string, hasTaskToday: bool, taskId: Option<string>, dueAt: Option<int>)

  /** `userPlants.map((up) => up.id)` */
  function UserPlantIds(ups: seq<UserPlant>): (ids: seq<string>)
    ensures |ids| == |ups|
    ensures forall i :: 0 <= i < |ups| ==> ids[i] == ups[i].id
  {
    seq(|ups|, i requires 0 <= i < |ups| => ups[i].id)
  }

  /** The task query's filter: pending, due inside `[start, end]`, and for one of the listed user plants. */
  predicate Selected(t: CareTask, ids: seq<string>, start: int, end: int) {
    t.status == Pending && start <= t.dueAt <= end && t.userPlantId in ids
  }

  /** The rows the task query returns, in the order the store holds them. */
  function SelectTasks(ts: seq<CareTask>, ids: seq<string>, start: int, end: int): (r: seq<CareTask>)
    ensures |r| <= |ts|
    ensures forall k :: 0 <= k < |r| ==> Selected(r[k], ids, start, end)
    decreases |ts|
  {
    if ts == [] then []
    else
      var rest := SelectTasks(ts[..|ts| - 1], ids, start, end);
      if Selected(ts[|ts| - 1], ids, start, end) then rest + [ts[|ts| - 1]] else rest
  }

  /** The filter keeps exactly the tasks that pass it: a task is returned iff it is among the rows and selected. */
  lemma {:induction false} SelectTasksKeepsExactly(ts: seq<CareTask>, ids: seq<string>, start: int, end: int, t: CareTask)
    ensures t in SelectTasks(ts, ids, start, end) <==> t in ts && Selected(t, ids, start, end)
    decreases |ts|
  {
    if ts != [] {
      var p := ts[..|ts| - 1];
      assert ts == p + [ts[|ts| - 1]];
      SelectTasksKeepsExactly(p, ids, start, end, t);
    }
  }

  function InfoOf(t: CareTask): TaskInfo {
    TaskInfo(t.id, t.dueAt)
  }

  /** `tasks?.forEach((task) => taskMap.set(task.user_plant_id, ...))`: a later task overwrites an earlier one. */
  function TaskMap(rs: seq<CareTask>): (m: map<string, TaskInfo>)
    ensures forall u :: u in m <==> exists k :: 0 <= k < |rs| && rs[k].userPlantId == u
    decreases |rs|
  {
    if rs == [] then map[]
    else
      var prev := TaskMap(rs[..|rs| - 1]);
      assert forall k :: 0 <= k < |rs| - 1 ==> rs[..|rs| - 1][k] == rs[k];
      prev[rs[|rs| - 1].userPlantId := InfoOf(rs[|rs| - 1])]
  }

  /** The output record for one user plant. */
  function TodayOf(up: UserPlant, m: map<string, TaskInfo>): (r: TodayPlant)
    ensures r.plant == up.plant && r.userPlantId == up.id
    ensures r.hasTaskToday <==> up.id in m
    ensures r.hasTaskToday ==> r.taskId == Some(m[up.id].taskId) && r.dueAt == Some(m[up.id].dueAt)
    ensures !r.hasTaskToday ==> r.taskId == None && r.dueAt == None
  {
    if up.id in m then TodayPlant(up.plant, up.id, true, Some(m[up.id].taskId), Some(m[up.id].dueAt))
    else TodayPlant(up.plant, up.id, false, None, None)
  }

  /** `userPlants.map(...)` with the task map. */
  function Merge(ups: seq<UserPlant>, m: map<string, TaskInfo>): (r: seq<TodayPlant>)
    ensures |r| == |ups|
    ensures forall i :: 0 <= i < |ups| ==> r[i] == TodayOf(ups[i], m)
  {
    seq(|ups|, i requires 0 <= i < |ups| => TodayOf(ups[i], m))
  }

  /**
   The whole function. `user` is the signed-in user's id, `userPlants` the
   answer of the user-plant query (already restricted to the user's visible
   plants and ordered by the store), `tasks` the answer of the task query
   before its filter, and `[start, end]` today's window.
   */
  function GetPlantsWithTodayTask(user: Option<string>, userPlants: Result<seq<UserPlant>, Thrown>,
                                  tasks: Result<seq<CareTask>, Thrown>, start: int, end: int)
    : (r: Result<seq<TodayPlant>, Thrown>)
    ensures user == None ==> r == Ok([])
    ensures user != None && userPlants.Err? ==> r == Err(userPlants.error)
    ensures user != None && userPlants == Ok([]) ==> r == Ok([])
    ensures user != None && userPlants.Ok? && userPlants.value != [] && tasks.Err? ==> r == Err(tasks.error)
    ensures r.Ok? && user != None && userPlants.Ok? ==> |r.value| == |userPlants.value|
  {
    if user == None then Ok([])
    else
      match userPlants
      case Err(e) => Err(e)
      case Ok(ups) =>
        if ups == [] then Ok([])
        else
          match tasks
          case Err(e) => Err(e)
          case Ok(ts) => Ok(Merge(ups, TaskMap(SelectTasks(ts, UserPlantIds(ups), start, end))))
  }

  /** `j` is the last task in `ts` that the filter keeps for user plant `u`. */
  predicate LastSelectedFor(ts: seq<CareTask>, ids: seq<string>, start: int, end: int, u: string, j: int) {
    && 0 <= j < |ts|
    && Selected(ts[j], ids, start, end) && ts[j].userPlantId == u
    && forall k :: j < k < |ts| ==> !(Selected(ts[k], ids, start, end) && ts[k].userPlantId == u)
  }

  /** Some task in `ts` passes the filter for user plant `u`. */
  predicate HasSelectedFor(ts: seq<CareTask>, ids: seq<string>, start: int, end: int, u: string) {
    exists k :: 0 <= k < |ts| && Selected(ts[k], ids, start, end) && ts[k].userPlantId == u
  }

  lemma TaskMapAppend(rs: seq<CareTask>, t: CareTask)
    ensures TaskMap(rs + [t]) == TaskMap(rs)[t.userPlantId := InfoOf(t)]
  {
    assert (rs + [t])[..|rs|] == rs;
  }

  /** A selected task for `u` in `p + [t]` is one in `p`, or `t` itself. */
  lemma HasSelectedSnoc(p: seq<CareTask>, t: CareTask, ids: seq<string>, start: int, end: int, u: string)
    ensures HasSelectedFor(p + [t], ids, start, end, u) <==>
      HasSelectedFor(p, ids, start, end, u) || (Selected(t, ids, start, end) && t.userPlantId == u)
  {
    var ts := p + [t];
    if HasSelectedFor(ts, ids, start, end, u) {
      var k :| 0 <= k < |ts| && Selected(ts[k], ids, start, end) && ts[k].userPlantId == u;
      if k < |p| {
        assert ts[k] == p[k];
      }
    }
    if HasSelectedFor(p, ids, start, end, u) {
      var k :| 0 <= k < |p| && Selected(p[k], ids, start, end) && p[k].userPlantId == u;
      assert ts[k] == p[k];
    }
    assert ts[|p|] == t;
  }

  /** Appending a task that is not selected for `u` keeps the last selected task for `u`. */
  lemma LastSelectedSnoc(p: seq<CareTask>, t: CareTask, ids: seq<string>, start: int, end: int, u: string, j: int)
    requires LastSelectedFor(p, ids, start, end, u, j)
    requires !(Selected(t, ids, start, end) && t.userPlantId == u)
    ensures LastSelectedFor(p + [t], ids, start, end, u, j)
  {
    var ts := p + [t];
    assert forall k :: 0 <= k < |p| ==> ts[k] == p[k];
    assert ts[|p|] == t;
  }

  /** An appended task that is selected for `u` is the last one for `u`. */
  lemma LastSelectedAtEnd(p: seq<CareTask>, t: CareTask, ids: seq<string>, start: int, end: int, u: string)
    requires Selected(t, ids, start, end) && t.userPlantId == u
    ensures LastSelectedFor(p + [t], ids, start, end, u, |p|)
  {
    assert (p + [t])[|p|] == t;
  }

  /** The task map after the filter, for the tasks `p + [t]`, in terms of the map for `p`. */
  lemma TaskMapSelectedSnoc(p: seq<CareTask>, t: CareTask, ids: seq<string>, start: int, end: int)
    ensures TaskMap(SelectTasks(p + [t], ids, start, end)) ==
      if Selected(t, ids, start, end)
      then TaskMap(SelectTasks(p, ids, start, end))[t.userPlantId := InfoOf(t)]
      else TaskMap(SelectTasks(p, ids, start, end))
  {
    var ts := p + [t];
    assert ts[..|ts| - 1] == p && ts[|ts| - 1] == t;
    if Selected(t, ids, start, end) {
      TaskMapAppend(SelectTasks(p, ids, start, end), t);
    }
  }

  /**
   Filtering and then letting later tasks overwrite earlier ones gives, for
   every user plant, exactly the last task in store order that passes the
   filter, and no entry when none does.
   */
  lemma {:induction false} TaskMapOfSelected(ts: seq<CareTask>, ids: seq<string>, start: int, end: int, u: string)
    ensures var m := TaskMap(SelectTasks(ts, ids, start, end));
      && (u in m <==> HasSelectedFor(ts, ids, start, end, u))
      && (u in m ==> exists j :: LastSelectedFor(ts, ids, start, end, u, j) && m[u] == InfoOf(ts[j]))
    decreases |ts|
  {
    if ts != [] {
      var p := ts[..|ts| - 1];
      var t := ts[|ts| - 1];
      assert ts == p + [t];
      TaskMapOfSelected(p, ids, start, end, u);
      HasSelectedSnoc(p, t, ids, start, end, u);
      TaskMapSelectedSnoc(p, t, ids, start, end);
      var prev := TaskMap(SelectTasks(p, ids, start, end));
      if Selected(t, ids, start, end) && t.userPlantId == u {
        LastSelectedAtEnd(p, t, ids, start, end, u);
        assert (p + [t])[|p|] == t;
      } else if u in prev {
        var j :| LastSelectedFor(p, ids, start, end, u, j) && prev[u] == InfoOf(p[j]);
        LastSelectedSnoc(p, t, ids, start, end, u, j);
        assert (p + [t])[j] == p[j];
      }
    }
  }

  /**
   Each output record carries its user plant's columns and id, in the order
   of the user-plant list; `hasTaskToday` holds exactly when a pending task
   of that user plant falls due inside the window, and then `taskId` and
   `dueAt` come from the last such task in store order; otherwise both are
   absent.
   */
  lemma TodayRecord(user: Option<string>, ups: seq<UserPlant>, ts: seq<CareTask>, start: int, end: int, i: int)
    requires user != None && 0 <= i < |ups|
    ensures var r := GetPlantsWithTodayTask(user, Ok(ups), Ok(ts), start, end);
      && r.Ok? && |r.value| == |ups|
      && r.value[i].plant == ups[i].plant
      && r.value[i].userPlantId == ups[i].id
      && (r.value[i].hasTaskToday <==>
            exists k :: 0 <= k < |ts| && ts[k].userPlantId == ups[i].id
              && ts[k].status == Pending && start <= ts[k].dueAt <= end)
      && (r.value[i].hasTaskToday ==>
            exists j :: LastSelectedFor(ts, UserPlantIds(ups), start, end, ups[i].id, j)
              && r.value[i].taskId == Some(ts[j].id) && r.value[i].dueAt == Some(ts[j].dueAt))
      && (!r.value[i].hasTaskToday ==> r.value[i].taskId == None && r.value[i].dueAt == None)
  {
    var ids := UserPlantIds(ups);
    assert ids[i] == ups[i].id;
    TaskMapOfSelected(ts, ids, start, end, ups[i].id);
  }

  /** Both window bounds are inclusive, and a task just past either bound is not today's. */
  lemma WindowIsInclusive(t: CareTask, ids: seq<string>, start: int, end: int)
    requires t.status == Pending && t.userPlantId in ids
    ensures t.dueAt == start && start <= end ==> Selected(t, ids, start, end)
    ensures t.dueAt == end && start <= end ==> Selected(t, ids, start, end)
    ensures t.dueAt == start - 1 || t.dueAt == end + 1 ==> !Selected(t, ids, start, end)
  {
  }

  /**
   Three pending tasks of one user plant, due one second after midnight,
   one minute before midnight and one second after the next midnight (in
   milliseconds from the start of the day): only the first two are today's,
   and the later of them is the one reported.
   */
  lemma DailyWindowExample()
    ensures var ts := [CareTask("t1", "up1", 1000, Pending), CareTask("t2", "up1", 86_340_000, Pending),
                       CareTask("t3", "up1", 86_401_000, Pending)];
      && SelectTasks(ts, ["up1"], 0, 86_399_999) == ts[..2]
      && TaskMap(SelectTasks(ts, ["up1"], 0, 86_399_999)) == map["up1" := TaskInfo("t2", 86_340_000)]
  {
    var t1 := CareTask("t1", "up1", 1000, Pending);
    var t2 := CareTask("t2", "up1", 86_340_000, Pending);
    var t3 := CareTask("t3", "up1", 86_401_000, Pending);
    var ids := ["up1"];
    TaskMapSelectedSnoc([], t1, ids, 0, 86_399_999);
    assert [] + [t1] == [t1];
    TaskMapSelectedSnoc([t1], t2, ids, 0, 86_399_999);
    assert [t1] + [t2] == [t1, t2];
    TaskMapSelectedSnoc([t1, t2], t3, ids, 0, 86_399_999);
    assert [t1, t2] + [t3] == [t1, t2, t3];
    assert [t1, t2, t3][..2] == [t1, t2];
    assert [t1, t2][..1] == [t1];
    assert SelectTasks([t1], ids, 0, 86_399_999) == [t1];
    assert SelectTasks([t1, t2], ids, 0, 86_399_999) == [t1, t2];
  }
}
