/** The recipe runs of cc/notifications/runs.py: the device's `runs` list,
    newest first, at most `MaxListSize` long. Times are seconds on the injected
    clock. */
module Runs {
  import opened Common
  import opened DeviceStore

  /** A stored run, or `None`/`{}` where the list holds no real run. */
  datatype RunItem =
    | NoRun
    | Run(start: int, end: Option<int>, recipeName: Value)

  /** `get_all(device_ID)`. */
  function GetAll(store: PropertyStore<string, RunItem>, deviceId: string): (r: seq<RunItem>)
    reads store
    ensures deviceId !in store.lists ==> r == []
    ensures deviceId in store.lists ==> r == store.lists[deviceId]
  {
    store.Get(deviceId)
  }

  /** `get_latest(device_ID)`: the head of the list; indexing an empty list
      raises. */
  function GetLatest(runs: seq<RunItem>): (r: Result<RunItem>)
    ensures r.Raised? <==> |runs| == 0
    ensures r.Ok? ==> r.value == runs[0]
  {
    if |runs| == 0 then Raised else Ok(runs[0])
  }

  /** The run `start` pushes. */
  function NewRun(recipeName: Value, now: int): RunItem {
    Run(now, None, recipeName)
  }

  /** `start(device_ID, recipe_name)` at time `now`. */
  method Start(store: PropertyStore<string, RunItem>, deviceId: string, recipeName: Value, now: int)
    modifies store
    ensures store.lists == old(store.lists)[deviceId := Pushed(old(store.Get(deviceId)), NewRun(recipeName, now))]
  {
    store.Push(deviceId, NewRun(recipeName, now));
  }

  /** `start` puts an open run for the recipe at the front, and the list
      stays within the cap. */
  lemma StartPutsOpenRunFirst(runs: seq<RunItem>, recipeName: Value, now: int)
    requires |runs| <= MaxListSize
    ensures GetLatest(Pushed(runs, NewRun(recipeName, now))) == Ok(Run(now, None, recipeName))
    ensures |Pushed(runs, NewRun(recipeName, now))| <= MaxListSize
  {
  }

  /** The list `stop` saves: the head run with `end` set to `now`, `None` when
      the list is empty (the source raises) and the list itself when the head
      is no run (nothing is saved). */
  function StoppedRuns(runs: seq<RunItem>, now: int): (r: Result<seq<RunItem>>)
    ensures r.Raised? <==> |runs| == 0
    ensures r.Ok? ==> |r.value| == |runs| && r.value[1..] == runs[1..]
    ensures r.Ok? && runs[0].NoRun? ==> r.value == runs
    ensures r.Ok? && runs[0].Run? ==>
              r.value[0] == Run(runs[0].start, Some(now), runs[0].recipeName)
  {
    if |runs| == 0 then Raised
    else match runs[0]
      case NoRun => Ok(runs)
      case Run(s, _, name) => Ok(runs[0 := Run(s, Some(now), name)])
  }

  /** `stop(device_ID)` at time `now`. `raised` reports the `IndexError` of an
      empty list; a head that is no run leaves the store untouched. */
  method Stop(store: PropertyStore<string, RunItem>, deviceId: string, now: int) returns (raised: bool)
    modifies store
    ensures raised <==> |old(store.Get(deviceId))| == 0
    ensures raised || old(store.Get(deviceId))[0].NoRun? ==> store.lists == old(store.lists)
    ensures !raised && old(store.Get(deviceId))[0].Run? ==>
              store.lists == old(store.lists)[deviceId := StoppedRuns(old(store.Get(deviceId)), now).value]
  {
    var latest := GetLatest(GetAll(store, deviceId));
    if latest.Raised? {
      return true;
    }
    var run := latest.value;
    if run.NoRun? {
      return false;
    }
    run := run.(end := Some(now));
    var allRuns := GetAll(store, deviceId);
    allRuns := allRuns[0 := run];
    store.Save(deviceId, allRuns);
    return false;
  }

  /** `stop` does not look at `end`: a run that was already closed is closed
      again at the new time. */
  lemma StopOverwritesEnd(runs: seq<RunItem>, now: int)
    requires |runs| > 0 && runs[0].Run? && runs[0].end.Some?
    ensures StoppedRuns(runs, now).value[0].end == Some(now)
  {
  }

  /** With a clock that does not go backwards, a run started and then stopped
      ends no earlier than it started. */
  lemma StartThenStopOrdered(runs: seq<RunItem>, recipeName: Value, started: int, stopped: int)
    requires started <= stopped
    ensures StoppedRuns(Pushed(runs, NewRun(recipeName, started)), stopped).Ok?
    ensures StoppedRuns(Pushed(runs, NewRun(recipeName, started)), stopped).value[0]
         == Run(started, Some(stopped), recipeName)
    ensures var head := StoppedRuns(Pushed(runs, NewRun(recipeName, started)), stopped).value[0];
            head.end.Some? && head.start <= head.end.value
  {
  }
}
