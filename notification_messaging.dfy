/** The recipe lifecycle messages of
    cc/notifications/notification_messaging.py: `publish` builds the message a
    device's recipe event becomes, and `parse` applies a received one to the
    device's schedule and runs. */
module NotificationMessaging {
  import opened Common
  import opened DeviceStore
  import Scheduler
  import Runs

  const RecipeStartName: string := "recipe_start"
  const RecipeStopName: string := "recipe_stop"
  const RecipeEndName: string := "recipe_end"

  const DeviceIdKey: string := "device_ID"
  const MessageTypeKey: string := "message_type"
  const MessageKey: string := "message"

  /** The three message types. */
  datatype RecipeEvent = RecipeStart | RecipeStop | RecipeEnd

  function EventName(t: RecipeEvent): string {
    match t
    case RecipeStart => RecipeStartName
    case RecipeStop => RecipeStopName
    case RecipeEnd => RecipeEndName
  }

  /** The message type a dict value names, if it names one. */
  function EventOf(v: Value): (r: Option<RecipeEvent>)
    ensures r.Some? <==> v in {Str(RecipeStartName), Str(RecipeStopName), Str(RecipeEndName)}
    ensures r.Some? ==> v == Str(EventName(r.value))
  {
    if v == Str(RecipeStartName) then Some(RecipeStart)
    else if v == Str(RecipeStopName) then Some(RecipeStop)
    else if v == Str(RecipeEndName) then Some(RecipeEnd)
    else None
  }

  /** `validate_message(message)`. */
  function ValidateMessage(m: Dict): (ok: bool)
    ensures ok <==> DeviceIdKey in m && MessageTypeKey in m && MessageKey in m &&
                    EventOf(m[MessageTypeKey]).Some?
  {
    if DeviceIdKey !in m then false
    else if MessageTypeKey !in m then false
    else if MessageKey !in m then false
    else EventOf(DictGet(m, MessageTypeKey)).Some?
  }

  /** `publish(device_ID, message_type, message)`: the dict sent to the
      notifications topic, or `None` when nothing is sent. */
  function PublishMessage(deviceId: string, messageType: string, message: Value): (r: Option<Dict>)
    ensures r.None? <==> |deviceId| == 0 || EventOf(Str(messageType)).None?
    ensures r.Some? ==> r.value.Keys == {DeviceIdKey, MessageTypeKey, MessageKey}
    ensures r.Some? ==> r.value[DeviceIdKey] == Str(deviceId) && r.value[MessageTypeKey] == Str(messageType)
                        && r.value[MessageKey] == message
  {
    if |deviceId| == 0 then None
    else if messageType != RecipeStartName && messageType != RecipeStopName && messageType != RecipeEndName then None
    else Some(map[DeviceIdKey := Str(deviceId), MessageTypeKey := Str(messageType), MessageKey := message])
  }

  /** Every message `publish` sends is one `parse` accepts, carrying the same
      device, event and payload. */
  lemma PublishedMessagesValidate(deviceId: string, t: RecipeEvent, message: Value)
    requires |deviceId| > 0
    ensures PublishMessage(deviceId, EventName(t), message).Some?
    ensures ValidateMessage(PublishMessage(deviceId, EventName(t), message).value)
    ensures EventOf(PublishMessage(deviceId, EventName(t), message).value[MessageTypeKey]) == Some(t)
  {
  }

  /** The schedule after each event, read from the schedule before it. */
  function ScheduleAfter(t: RecipeEvent, sched: seq<Scheduler.SchedItem>, now: int): seq<Scheduler.SchedItem> {
    match t
    case RecipeStart =>
      Scheduler.Upsert(Scheduler.Upsert(sched, Scheduler.NewEntry(Scheduler.CheckFluid, 48, now)),
                       Scheduler.NewEntry(Scheduler.TakeMeasurements, 24 * 7, now))
    case RecipeStop => []
    case RecipeEnd => Scheduler.Upsert([], Scheduler.NewEntry(Scheduler.HarvestPlant, 0, now))
  }

  /** `parse(message)` at time `now`. `raised` reports the exception `stop`
      raises on a device without runs, after which `check` is not reached. A
      message whose `device_ID` is not a string changes nothing. */
  method Parse(m: Dict, schedules: PropertyStore<string, Scheduler.SchedItem>,
               runs: PropertyStore<string, Runs.RunItem>, now: int) returns (raised: bool)
    modifies schedules, runs
    ensures !ValidateMessage(m) || !m[DeviceIdKey].Str? ==>
              !raised && schedules.lists == old(schedules.lists) && runs.lists == old(runs.lists)
    ensures ValidateMessage(m) && m[DeviceIdKey].Str? ==>
              var dev := m[DeviceIdKey].s;
              var t := EventOf(m[MessageTypeKey]).value;
              schedules.lists == old(schedules.lists)[dev := ScheduleAfter(t, old(schedules.Get(dev)), now)] &&
              (t == RecipeStart ==>
                 !raised && runs.lists == old(runs.lists)[dev :=
                   Pushed(old(runs.Get(dev)), Runs.NewRun(m[MessageKey], now))]) &&
              (t != RecipeStart ==>
                 (raised <==> |old(runs.Get(dev))| == 0) &&
                 (raised || old(runs.Get(dev))[0].NoRun? ==> runs.lists == old(runs.lists)) &&
                 (!raised && old(runs.Get(dev))[0].Run? ==>
                    runs.lists == old(runs.lists)[dev := Runs.StoppedRuns(old(runs.Get(dev)), now).value]))
  {
    raised := false;
    if !ValidateMessage(m) {
      return;
    }
    var devValue := DictGet(m, DeviceIdKey);
    if !devValue.Str? {
      return;
    }
    var dev := devValue.s;
    var messageType := DictGet(m, MessageTypeKey);
    var recipeName := DictGet(m, MessageKey);
    ghost var lists0, sched0 := schedules.lists, schedules.Get(dev);
    if messageType == Str(RecipeStartName) {
      Scheduler.ParseCommandName(Scheduler.CheckFluid);
      Scheduler.ParseCommandName(Scheduler.TakeMeasurements);
      Scheduler.Add(schedules, dev, Scheduler.CommandName(Scheduler.CheckFluid), 48, now);
      Scheduler.Add(schedules, dev, Scheduler.CommandName(Scheduler.TakeMeasurements), 24 * 7, now);
      assert schedules.lists == lists0[dev := ScheduleAfter(RecipeStart, sched0, now)];
      Runs.Start(runs, dev, recipeName, now);
    } else if messageType == Str(RecipeStopName) {
      Scheduler.RemoveAllCommands(schedules, dev);
      raised := Runs.Stop(runs, dev, now);
    } else if messageType == Str(RecipeEndName) {
      Scheduler.ParseCommandName(Scheduler.HarvestPlant);
      Scheduler.RemoveAllCommands(schedules, dev);
      Scheduler.Add(schedules, dev, Scheduler.CommandName(Scheduler.HarvestPlant), 0, now);
      assert schedules.lists == lists0[dev := ScheduleAfter(RecipeEnd, sched0, now)];
      raised := Runs.Stop(runs, dev, now);
    }
    if raised {
      return;
    }
    Scheduler.Check(schedules, dev);
  }

  /** After `recipe_start` the schedule holds one `check_fluid` entry
      repeating every 48 hours and one `take_measurements` entry repeating
      every 168 hours; other commands are kept as they were. */
  lemma StartSchedulesBothCommands(sched: seq<Scheduler.SchedItem>, now: int)
    requires Scheduler.OnePerCommand(sched)
    ensures Scheduler.OnePerCommand(ScheduleAfter(RecipeStart, sched, now))
    ensures Scheduler.NewEntry(Scheduler.CheckFluid, 48, now) in ScheduleAfter(RecipeStart, sched, now)
    ensures Scheduler.NewEntry(Scheduler.TakeMeasurements, 24 * 7, now) in ScheduleAfter(RecipeStart, sched, now)
    ensures Scheduler.NewEntry(Scheduler.CheckFluid, 48, now).repeat == 48
    ensures Scheduler.NewEntry(Scheduler.TakeMeasurements, 24 * 7, now).repeat == 168
    ensures forall i :: 0 <= i < |sched| && sched[i].Cmd() != Some("check_fluid") &&
                        sched[i].Cmd() != Some("take_measurements") ==>
              ScheduleAfter(RecipeStart, sched, now)[i] == sched[i]
  {
    var fluid := Scheduler.NewEntry(Scheduler.CheckFluid, 48, now);
    var measure := Scheduler.NewEntry(Scheduler.TakeMeasurements, 24 * 7, now);
    var s1 := Scheduler.Upsert(sched, fluid);
    Scheduler.UpsertKeepsOnePerCommand(sched, fluid);
    Scheduler.UpsertKeepsOnePerCommand(s1, measure);
    var s2 := Scheduler.Upsert(s1, measure);
    assert fluid in s1;
    var k :| 0 <= k < |s1| && s1[k] == fluid;
    assert s1[k].Cmd() != measure.Cmd();
    assert s2[k] == fluid;
  }

  /** After `recipe_stop` no command is scheduled, and after `recipe_end` the
      only one is a one-time `harvest_plant`. */
  lemma StopAndEndSchedules(sched: seq<Scheduler.SchedItem>, now: int)
    ensures ScheduleAfter(RecipeStop, sched, now) == []
    ensures ScheduleAfter(RecipeEnd, sched, now) == [Scheduler.NewEntry(Scheduler.HarvestPlant, 0, now)]
    ensures ScheduleAfter(RecipeEnd, sched, now)[0].repeat == 0
    ensures ScheduleAfter(RecipeEnd, sched, now)[0].command == "harvest_plant"
  {
  }
}
