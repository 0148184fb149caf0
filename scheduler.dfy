/** The per-device command schedule of cc/notifications/scheduler.py. The
    schedule is the `schedule` list of the device's property store; the
    `Scheduler` object itself holds no state, so its operations take the store.
    Times are seconds on the injected clock `now`. */
module Scheduler {
  import opened Common
  import opened DeviceStore

  /** The three commands of the `commands` table. */
  datatype Command = CheckFluid | TakeMeasurements | HarvestPlant

  function CommandName(c: Command): string {
    match c
    case CheckFluid => "check_fluid"
    case TakeMeasurements => "take_measurements"
    case HarvestPlant => "harvest_plant"
  }

  /** `__validate_command`: a command name is valid exactly when it is a key of
      the `commands` table. */
  function ParseCommand(name: string): (r: Option<Command>)
    ensures r.Some? <==> name in {"check_fluid", "take_measurements", "harvest_plant"}
    ensures r.Some? ==> CommandName(r.value) == name
  {
    if name == "check_fluid" then Some(CheckFluid)
    else if name == "take_measurements" then Some(TakeMeasurements)
    else if name == "harvest_plant" then Some(HarvestPlant)
    else None
  }

  lemma ParseCommandName(c: Command)
    ensures ParseCommand(CommandName(c)) == Some(c)
  {
  }

  /** The template message of each command (the misspelling is the table's). */
  function TemplateMessage(c: Command): string {
    match c
    case CheckFluid => "Check your fluid level"
    case TakeMeasurements => "Record your plant measurementsl"
    case HarvestPlant => "Time to harvest your plant"
  }

  /** The template's `default_repeat_hours`. */
  function DefaultRepeatHours(c: Command): nat {
    match c
    case CheckFluid => 48
    case TakeMeasurements => 24
    case HarvestPlant => 0
  }

  /** A stored schedule element: a command dict, or the empty dict `{}`. */
  datatype SchedItem =
    | SchedEmpty
    | SchedEntry(command: string, message: string, runAt: int, repeat: int, count: int)
  {
    /** `item.get('command')`. */
    function Cmd(): Option<string> {
      if SchedEntry? then Some(command) else None
    }
  }

  /** The repeat interval `add` stores: the caller's value when it is not
      negative, the template's default otherwise. */
  function RepeatFor(c: Command, repeatHours: int): (r: int)
    ensures r >= 0
    ensures repeatHours >= 0 ==> r == repeatHours
    ensures repeatHours < 0 ==> r == DefaultRepeatHours(c)
  {
    if repeatHours >= 0 then repeatHours else DefaultRepeatHours(c)
  }

  /** The dict `add` writes: run `repeat` hours from now, never yet executed. */
  function NewEntry(c: Command, repeatHours: int, now: int): (e: SchedItem)
    ensures e.SchedEntry? && e.Cmd() == Some(CommandName(c))
    ensures e.message == TemplateMessage(c) && e.count == 0
    ensures e.repeat == RepeatFor(c, repeatHours) && e.runAt == now + 3600 * e.repeat
  {
    var repeat := RepeatFor(c, repeatHours);
    SchedEntry(CommandName(c), TemplateMessage(c), now + 3600 * repeat, repeat, 0)
  }

  /** The index of the first element holding `command`, if any. */
  function FirstIndexOf(l: seq<SchedItem>, command: string): (r: Option<nat>)
    ensures r.None? <==> forall i :: 0 <= i < |l| ==> l[i].Cmd() != Some(command)
    ensures r.Some? ==> r.value < |l| && l[r.value].Cmd() == Some(command)
    ensures r.Some? ==> forall i :: 0 <= i < r.value ==> l[i].Cmd() != Some(command)
  {
    if |l| == 0 then None
    else if l[0].Cmd() == Some(command) then Some(0)
    else match FirstIndexOf(l[1..], command)
      case None => None
      case Some(k) => Some(k + 1)
  }

  /** At most one element per command, the invariant the `commands` table
      announces. */
  predicate OnePerCommand(l: seq<SchedItem>) {
    forall i, j :: 0 <= i < j < |l| && l[i].SchedEntry? ==> l[i].Cmd() != l[j].Cmd()
  }

  /** The schedule after `add` writes `e`: the first element with the same
      command is replaced in place, or `e` is appended. */
  function Upsert(l: seq<SchedItem>, e: SchedItem): (r: seq<SchedItem>)
    requires e.SchedEntry?
    ensures (exists i :: 0 <= i < |l| && l[i].Cmd() == e.Cmd()) ==> |r| == |l|
    ensures (forall i :: 0 <= i < |l| ==> l[i].Cmd() != e.Cmd()) ==> r == l + [e]
    ensures e in r
    ensures forall i :: 0 <= i < |l| && l[i].Cmd() != e.Cmd() ==> r[i] == l[i]
    ensures forall i :: 0 <= i < |r| ==> r[i] == e || (i < |l| && r[i] == l[i])
    ensures forall k :: (0 <= k < |l| && l[k].Cmd() == e.Cmd() &&
                         (forall i :: 0 <= i < k ==> l[i].Cmd() != e.Cmd())) ==> r == l[k := e]
  {
    match FirstIndexOf(l, e.command)
    case Some(k) => assert l[k := e][k] == e; l[k := e]
    case None => l + [e]
  }

  /** `add` keeps one element per command, and the schedule grows by exactly
      one element precisely when the command was absent. */
  lemma UpsertKeepsOnePerCommand(l: seq<SchedItem>, e: SchedItem)
    requires e.SchedEntry? && OnePerCommand(l)
    ensures OnePerCommand(Upsert(l, e))
    ensures |Upsert(l, e)| == |l| + 1 <==> forall i :: 0 <= i < |l| ==> l[i].Cmd() != e.Cmd()
    ensures |Upsert(l, e)| == |l| <==> exists i :: 0 <= i < |l| && l[i].Cmd() == e.Cmd()
  {
    var r := Upsert(l, e);
    match FirstIndexOf(l, e.command)
    case Some(k) =>
      forall i, j | 0 <= i < j < |r| && r[i].SchedEntry? ensures r[i].Cmd() != r[j].Cmd() {
        if i == k {
          assert l[k].SchedEntry? && l[k].Cmd() == r[i].Cmd();
        } else if j == k {
          assert l[j].Cmd() == e.Cmd();
        }
      }
    case None =>
  }

  /** `get_command_dict`: the first stored dict for a valid command, or `{}`. */
  function GetCommandDict(l: seq<SchedItem>, command: string): (r: SchedItem)
    ensures ParseCommand(command).None? ==> r == SchedEmpty
    ensures (forall i :: 0 <= i < |l| ==> l[i].Cmd() != Some(command)) ==> r == SchedEmpty
    ensures r != SchedEmpty ==> r in l && r.Cmd() == Some(command)
    ensures forall k :: (ParseCommand(command).Some? && 0 <= k < |l| && l[k].Cmd() == Some(command) &&
                         (forall i :: 0 <= i < k ==> l[i].Cmd() != Some(command))) ==> r == l[k]
  {
    if ParseCommand(command).None? then SchedEmpty
    else match FirstIndexOf(l, command)
      case None => SchedEmpty
      case Some(k) => l[k]
  }

  /** `add(device_ID, command, repeat_hours)` at time `now`. An invalid command
      leaves the store as it is. */
  method Add(store: PropertyStore<string, SchedItem>, deviceId: string, command: string,
             repeatHours: int, now: int)
    modifies store
    ensures ParseCommand(command).None? ==> store.lists == old(store.lists)
    ensures ParseCommand(command).Some? ==>
              store.lists == old(store.lists)[deviceId :=
                Upsert(old(store.Get(deviceId)), NewEntry(ParseCommand(command).value, repeatHours, now))]
  {
    var c := ParseCommand(command);
    if c.None? {
      return;
    }
    var cmdDict := NewEntry(c.value, repeatHours, now);
    var sched := store.Get(deviceId);
    var cmdIndex := -1;
    var i := 0;
    while i < |sched|
      invariant 0 <= i <= |sched|
      invariant cmdIndex == -1 ==> forall j :: 0 <= j < i ==> sched[j].Cmd() != Some(command)
      invariant cmdIndex != -1 ==> 0 <= cmdIndex < |sched| && FirstIndexOf(sched, command) == Some(cmdIndex)
    {
      if sched[i].Cmd() == Some(command) {
        cmdIndex := i;
        break;
      }
      i := i + 1;
    }
    if cmdIndex >= 0 {
      sched := sched[cmdIndex := cmdDict];
    } else {
      sched := sched + [cmdDict];
    }
    store.Save(deviceId, sched);
  }

  /** The elements whose command differs from `command`, in their order. */
  function WithoutCommand(l: seq<SchedItem>, command: string): (r: seq<SchedItem>)
    ensures |r| <= |l|
    ensures forall x :: x in r <==> x in l && x.Cmd() != Some(command)
  {
    if |l| == 0 then []
    else (if l[0].Cmd() != Some(command) then [l[0]] else []) + WithoutCommand(l[1..], command)
  }

  /** Filtering works piecewise, so the kept elements stay in their order. */
  lemma {:induction false} WithoutCommandAppend(a: seq<SchedItem>, b: seq<SchedItem>, command: string)
    ensures WithoutCommand(a + b, command) == WithoutCommand(a, command) + WithoutCommand(b, command)
  {
    if |a| == 0 {
      assert a + b == b;
    } else {
      assert (a + b)[1..] == a[1..] + b;
      WithoutCommandAppend(a[1..], b, command);
    }
  }

  /** The schedule the store holds after `remove_command` as written: the
      filtered list, unless it is empty, in which case nothing is saved. */
  function RemovedSchedule(l: seq<SchedItem>, command: string): (r: seq<SchedItem>)
    ensures |WithoutCommand(l, command)| > 0 ==> r == WithoutCommand(l, command)
    ensures |WithoutCommand(l, command)| == 0 ==> r == l
  {
    var kept := WithoutCommand(l, command);
    if |kept| > 0 then kept else l
  }

  /** `remove_command(device_ID, command)`. */
  method RemoveCommand(store: PropertyStore<string, SchedItem>, deviceId: string, command: string)
    modifies store
    ensures |WithoutCommand(old(store.Get(deviceId)), command)| > 0 ==>
              store.lists == old(store.lists)[deviceId := WithoutCommand(old(store.Get(deviceId)), command)]
    ensures |WithoutCommand(old(store.Get(deviceId)), command)| == 0 ==> store.lists == old(store.lists)
    ensures store.Get(deviceId) == RemovedSchedule(old(store.Get(deviceId)), command)
  {
    var newList: seq<SchedItem> := [];
    var sched := store.Get(deviceId);
    var i := 0;
    while i < |sched|
      invariant 0 <= i <= |sched|
      invariant newList == WithoutCommand(sched[..i], command)
      invariant store.lists == old(store.lists)
    {
      WithoutCommandStep(sched, i, command);
      if sched[i].Cmd() != Some(command) {
        newList := newList + [sched[i]];
      }
      i := i + 1;
    }
    assert sched[..i] == sched;
    if |newList| > 0 {
      store.Save(deviceId, newList);
    }
  }

  /** One more element extends the filtered prefix by at most that element. */
  lemma WithoutCommandStep(l: seq<SchedItem>, i: nat, command: string)
    requires i < |l|
    ensures WithoutCommand(l[..i + 1], command)
         == WithoutCommand(l[..i], command) + (if l[i].Cmd() != Some(command) then [l[i]] else [])
  {
    assert l[..i + 1] == l[..i] + [l[i]];
    WithoutCommandSnoc(l[..i], l[i], command);
  }

  /** Filtering a list with one more element at its end. */
  lemma WithoutCommandSnoc(p: seq<SchedItem>, x: SchedItem, command: string)
    ensures WithoutCommand(p + [x], command)
         == WithoutCommand(p, command) + (if x.Cmd() != Some(command) then [x] else [])
  {
    WithoutCommandAppend(p, [x], command);
    assert [x][1..] == [];
    assert WithoutCommand([x], command) == (if x.Cmd() != Some(command) then [x] else []) + [];
  }

  /** Removing the only command of a schedule leaves it stored. */
  lemma RemoveOnlyCommandKeepsIt(e: SchedItem)
    requires e.SchedEntry?
    ensures RemovedSchedule([e], e.command) == [e]
    ensures exists i :: 0 <= i < |RemovedSchedule([e], e.command)| &&
                          RemovedSchedule([e], e.command)[i].Cmd() == Some(e.command)
  {
    assert WithoutCommand([e], e.command) == [];
    assert RemovedSchedule([e], e.command)[0].Cmd() == Some(e.command);
  }

  /** What `remove_command` is for: no element with the command remains, and
      every other element is kept in its order. */
  lemma WithoutCommandRemovesIt(l: seq<SchedItem>, command: string)
    ensures forall i :: 0 <= i < |WithoutCommand(l, command)| ==>
              WithoutCommand(l, command)[i].Cmd() != Some(command)
    ensures WithoutCommand(l, command) == l <==> forall i :: 0 <= i < |l| ==> l[i].Cmd() != Some(command)
  {
    var r := WithoutCommand(l, command);
    forall i | 0 <= i < |r| ensures r[i].Cmd() != Some(command) {
      assert r[i] in r;
    }
    if forall i :: 0 <= i < |l| ==> l[i].Cmd() != Some(command) {
      WithoutCommandKeepsAll(l, command);
    } else {
      var i :| 0 <= i < |l| && l[i].Cmd() == Some(command);
      assert l[i] in l && l[i] !in r;
    }
  }

  lemma {:induction false} WithoutCommandKeepsAll(l: seq<SchedItem>, command: string)
    requires forall i :: 0 <= i < |l| ==> l[i].Cmd() != Some(command)
    ensures WithoutCommand(l, command) == l
  {
    if |l| > 0 {
      WithoutCommandKeepsAll(l[1..], command);
      assert l == [l[0]] + l[1..];
    }
  }

  /** `remove_all_commands(device_ID)`: the schedule becomes empty. */
  method RemoveAllCommands(store: PropertyStore<string, SchedItem>, deviceId: string)
    modifies store
    ensures store.lists == old(store.lists)[deviceId := []]
  {
    store.Save(deviceId, []);
  }

  /** `check(device_ID)` returns at once. */
  method Check(store: PropertyStore<string, SchedItem>, deviceId: string)
    ensures store.lists == old(store.lists)
  {
  }
}
