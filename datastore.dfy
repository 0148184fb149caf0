/** The pure helpers of cc/google/datastore.py that turn stored entities into
    the admin listings: the latest reading of a device property, the boot
    message's remote URL and access point, the time of a device's last
    message, its staleness, the count of devices active in the last hour, and
    the selection (and pruning) of a user's latest session.

    The document store itself is not modelled: fetched entities are inputs.
    `json.loads`, `strptime` and the clock are injected; formatted times are
    strings compared with Python's `<`. */
module Datastore {
  import opened Common
  import opened PyStr
  import opened Utils

  /** A `DeviceData` entity: each property maps to its list of entries,
      newest first; an entry is a dict with `value`, `timestamp` and `name`. */
  type DeviceData = map<string, seq<Dict>>

  const ValueKey: string := "value"
  const TimestampKey: string := "timestamp"
  const BootKey: string := "boot"
  const StatusKey: string := "status"
  const RemoteUrlKey: string := "remote_URL"
  const AccessPointKey: string := "access_point"

  const RhKey: string := "air_humidity_percent"
  const TempKey: string := "air_temperature_celcius"
  const Co2Key: string := "air_carbon_dioxide_ppm"
  const EcKey: string := "water_electrical_conductivity_ms_cm"
  const PhKey: string := "water_potential_hydrogen"
  const WaterTempKey: string := "water_temperature_celcius"

  /** The six sensor properties the device-data listing reads, in its order. */
  const SensorKeys: seq<string> := [RhKey, TempKey, Co2Key, EcKey, PhKey, WaterTempKey]

  const Epoch: string := "1970-01-01T00:00:00Z"
  const NeverText: string := "Never"
  const AccessPointPrefix: string := "BeagleBone-"

  // ---------------------------------------------------------------------
  // Latest reading

  /** `get_latest_val_from_DeviceData(dd, key)`: `('', '')` for a missing
      entity or property; otherwise the decoded `value` and `timestamp` of
      the newest entry (each `b''` when absent). An empty list raises. */
  function GetLatestVal(dd: Option<DeviceData>, key: string): (r: Result<(Value, Value)>)
    ensures dd.None? || key !in dd.value ==> r == Ok((Str(""), Str("")))
    ensures dd.Some? && key in dd.value ==> (r.Raised? <==> |dd.value[key]| == 0)
    ensures r.Ok? ==> !r.value.0.Bytes? && !r.value.1.Bytes?
    ensures r.Ok? && dd.Some? && key in dd.value ==>
              r.value.0 == BytesToString(DictGetOr(dd.value[key][0], ValueKey, Bytes(""))) &&
              r.value.1 == BytesToString(DictGetOr(dd.value[key][0], TimestampKey, Bytes("")))
  {
    if dd.None? || key !in dd.value then Ok((Str(""), Str("")))
    else
      var vals := dd.value[key];
      if |vals| == 0 then Raised
      else Ok((BytesToString(DictGetOr(vals[0], ValueKey, Bytes(""))),
               BytesToString(DictGetOr(vals[0], TimestampKey, Bytes("")))))
  }

  /** A reading written as text comes back as that text, and one written as
      bytes comes back decoded: the listing never shows a `bytes` object. */
  lemma LatestValDecodes(dd: DeviceData, key: string, text: string, stamp: string)
    requires key in dd && |dd[key]| > 0
    requires DictGet(dd[key][0], ValueKey) in {Str(text), Bytes(text)}
    requires DictGet(dd[key][0], TimestampKey) in {Str(stamp), Bytes(stamp)}
    ensures GetLatestVal(Some(dd), key) == Ok((Str(text), Str(stamp)))
  {
  }

  // ---------------------------------------------------------------------
  // Boot message fields

  /** The `remote_URL` field of a listing from the decoded boot message:
      `''` when the key is missing or `None`, else the URL lowercased. Only a
      string or `bytes` has `lower()`; anything else raises. */
  function RemoteUrl(boot: Dict): (r: Result<Value>)
    ensures DictGet(boot, RemoteUrlKey) == Null ==> r == Ok(Str(""))
    ensures DictGet(boot, RemoteUrlKey).Str? ==> r == Ok(Str(Lower(boot[RemoteUrlKey].s)))
    ensures DictGet(boot, RemoteUrlKey).Bytes? ==> r == Ok(Bytes(Lower(boot[RemoteUrlKey].text)))
    ensures DictGet(boot, RemoteUrlKey).Num? ==> r.Raised?
  {
    match DictGet(boot, RemoteUrlKey)
    case Null => Ok(Str(""))
    case Str(s) => Ok(Str(Lower(s)))
    case Bytes(t) => Ok(Bytes(Lower(t)))
    case Num(_) => Raised
  }

  /** The stored remote URL holds no upper-case letter, and lowercasing it
      again changes nothing. */
  lemma RemoteUrlIsLowerCase(boot: Dict)
    requires DictGet(boot, RemoteUrlKey).Str?
    ensures forall i :: 0 <= i < |RemoteUrl(boot).value.s| ==> !('A' <= RemoteUrl(boot).value.s[i] <= 'Z')
    ensures Lower(RemoteUrl(boot).value.s) == RemoteUrl(boot).value.s
  {
    var u := RemoteUrl(boot).value.s;
    assert forall i :: 0 <= i < |u| ==> LowerChar(u[i]) == u[i];
  }

  /** The `access_point` field of a listing from the decoded boot message:
      for a string starting with `BeagleBone-`, its second `-`-separated
      field; `''` for any other string or a missing key. A value that is not
      a string makes `startswith` raise. */
  function AccessPoint(boot: Dict): (r: Result<string>)
    ensures DictGet(boot, AccessPointKey) == Null ==> r == Ok("")
    ensures DictGet(boot, AccessPointKey).Str? && !StartsWith(boot[AccessPointKey].s, AccessPointPrefix) ==> r == Ok("")
    ensures DictGet(boot, AccessPointKey).Str? && StartsWith(boot[AccessPointKey].s, AccessPointPrefix) ==>
              |Split(boot[AccessPointKey].s, '-')| >= 2 && r == Ok(Split(boot[AccessPointKey].s, '-')[1])
    ensures DictGet(boot, AccessPointKey).Num? || DictGet(boot, AccessPointKey).Bytes? ==> r.Raised?
  {
    match DictGet(boot, AccessPointKey)
    case Null => Ok("")
    case Str(s) =>
      if StartsWith(s, AccessPointPrefix) then
        PrefixedHasTwoFields(s);
        var ap := Split(s, '-');
        if 2 <= |ap| then Ok(ap[1]) else Ok("")
      else Ok("")
    case _ => Raised
  }

  /** A `BeagleBone-` name splits into at least two fields, the second being
      the field of the rest. */
  lemma PrefixedHasTwoFields(s: string)
    requires StartsWith(s, AccessPointPrefix)
    ensures |Split(s, '-')| >= 2
    ensures Split(s, '-')[1] == Split(s[|AccessPointPrefix|..], '-')[0]
  {
    var rest := s[|AccessPointPrefix|..];
    assert s == "BeagleBone" + ['-'] + rest;
    SplitFirst("BeagleBone", '-', rest);
  }

  /** The first field of a split is the longest separator-free prefix. */
  lemma {:induction false} FirstField(s: string, c: char)
    ensures c !in Split(s, c)[0]
    ensures StartsWith(s, Split(s, c)[0])
    ensures |Split(s, c)[0]| < |s| ==> s[|Split(s, c)[0]|] == c
  {
    if |s| > 0 && s[0] != c {
      FirstField(s[1..], c);
      var t := Split(s[1..], c)[0];
      assert Split(s, c)[0] == [s[0]] + t;
      assert s[..|t| + 1] == [s[0]] + s[1..][..|t|];
    }
  }

  /** The access point of `BeagleBone-<code>-...` is `<code>`: it holds no
      `-`, is what follows the prefix up to the next `-`, and is the whole
      rest when the rest has no `-`. */
  lemma AccessPointIsWifiCode(boot: Dict, rest: string)
    requires DictGet(boot, AccessPointKey) == Str(AccessPointPrefix + rest)
    ensures AccessPoint(boot).Ok?
    ensures '-' !in AccessPoint(boot).value
    ensures StartsWith(rest, AccessPoint(boot).value)
    ensures |AccessPoint(boot).value| < |rest| ==> rest[|AccessPoint(boot).value|] == '-'
    ensures '-' !in rest ==> AccessPoint(boot).value == rest
  {
    var s := AccessPointPrefix + rest;
    assert s[..|AccessPointPrefix|] == AccessPointPrefix;
    assert s[|AccessPointPrefix|..] == rest;
    PrefixedHasTwoFields(s);
    FirstField(rest, '-');
    if '-' !in rest {
      SplitNoSep(rest, '-');
    }
  }

  /** The boot part of a device listing: `(remote_URL, access_point)` from
      the newest `boot` entry of the device's data, `('', '')` when there is
      no data or no boot list. The entry's `value` is decoded and handed to
      `jsonLoads`, which yields `None` where `json.loads` raises or gives
      something other than a dict. */
  function BootFields(dd: Option<DeviceData>, jsonLoads: string -> Option<Dict>): (r: Result<(Value, string)>)
    ensures dd.None? || BootKey !in dd.value ==> r == Ok((Str(""), ""))
    ensures dd.Some? && BootKey in dd.value && |dd.value[BootKey]| == 0 ==> r.Raised?
    ensures dd.Some? && BootKey in dd.value && |dd.value[BootKey]| > 0 ==>
              var raw := BytesToString(DictGet(dd.value[BootKey][0], ValueKey));
              (r.Ok? <==> raw.Str? && jsonLoads(raw.s).Some? &&
                          RemoteUrl(jsonLoads(raw.s).value).Ok? && AccessPoint(jsonLoads(raw.s).value).Ok?) &&
              (r.Ok? ==> r.value == (RemoteUrl(jsonLoads(raw.s).value).value, AccessPoint(jsonLoads(raw.s).value).value))
  {
    if dd.None? || BootKey !in dd.value then Ok((Str(""), ""))
    else
      var boot := dd.value[BootKey];
      if |boot| == 0 then Raised
      else
        var raw := BytesToString(DictGet(boot[0], ValueKey));
        if !raw.Str? then Raised
        else match jsonLoads(raw.s)
          case None => Raised
          case Some(bootDict) =>
            match RemoteUrl(bootDict)
            case Raised => Raised
            case Ok(url) =>
              match AccessPoint(bootDict)
              case Raised => Raised
              case Ok(ap) => Ok((url, ap))
  }

  // ---------------------------------------------------------------------
  // Last message time

  /** One step of the fold: `if ts > last: last = ts`. */
  function LaterOf(last: string, ts: string): (r: string)
    ensures r == last || r == ts
    ensures !StrLt(r, last) && !StrLt(r, ts)
  {
    if StrLt(last, ts) then StrLtAsymmetric(last, ts); StrLtIrreflexive(ts); ts
    else StrLtIrreflexive(last); last
  }

  /** The fold over `stamps` from `acc`, in order. */
  function Latest(acc: string, stamps: seq<string>): string {
    if |stamps| == 0 then acc else LaterOf(Latest(acc, stamps[..|stamps| - 1]), stamps[|stamps| - 1])
  }

  /** The fold is the string maximum: it is the start or one of the stamps,
      and neither the start nor any stamp exceeds it. */
  lemma {:induction false} LatestIsMax(acc: string, stamps: seq<string>)
    ensures Latest(acc, stamps) == acc || Latest(acc, stamps) in stamps
    ensures !StrLt(Latest(acc, stamps), acc)
    ensures forall t :: t in stamps ==> !StrLt(Latest(acc, stamps), t)
  {
    if |stamps| > 0 {
      var init := stamps[..|stamps| - 1];
      var last := stamps[|stamps| - 1];
      LatestIsMax(acc, init);
      var m := Latest(acc, init);
      var r := Latest(acc, stamps);
      assert stamps == init + [last];
      if r != m {
        assert StrLt(m, last) && r == last;
        if StrLt(r, acc) {
          StrLtTransitive(m, r, acc);
        }
        forall t | t in stamps ensures !StrLt(r, t) {
          if t in init && StrLt(r, t) {
            StrLtTransitive(m, r, t);
          }
        }
      }
    } else {
      StrLtIrreflexive(acc);
    }
  }

  /** The text the listing shows for a fold result: `Never` for the epoch. */
  function ShownTime(latest: string): string
  {
    if latest == Epoch then NeverText else latest
  }

  /** `last_message_time` is `Never` exactly when no stamp is later than the
      epoch; otherwise it is the latest stamp, later than the epoch and not
      exceeded by any stamp. */
  lemma LastMessageTimeSpec(stamps: seq<string>)
    ensures (forall t :: t in stamps ==> !StrLt(Epoch, t)) ==> ShownTime(Latest(Epoch, stamps)) == NeverText
    ensures (exists t :: t in stamps && StrLt(Epoch, t)) ==>
              var shown := ShownTime(Latest(Epoch, stamps));
              shown in stamps && StrLt(Epoch, shown) && forall t :: t in stamps ==> !StrLt(shown, t)
  {
    LatestIsMax(Epoch, stamps);
    StrLtTotal(Latest(Epoch, stamps), Epoch);
  }

  /** A sensor reading whose timestamp can be compared with a string. */
  predicate Readable(dd: Option<DeviceData>, key: string) {
    GetLatestVal(dd, key).Ok? && GetLatestVal(dd, key).value.1.Str?
  }

  /** The timestamp text of a readable property (`''` otherwise). */
  function StampOf(dd: Option<DeviceData>, key: string): string
  {
    if Readable(dd, key) then GetLatestVal(dd, key).value.1.s else ""
  }

  /** The timestamps of the properties `keys`, in order. */
  function Stamps(dd: Option<DeviceData>, keys: seq<string>): (r: seq<string>)
    ensures |r| == |keys|
    ensures forall i {:trigger r[i]} :: 0 <= i < |keys| ==> r[i] == StampOf(dd, keys[i])
  {
    if |keys| == 0 then []
    else Stamps(dd, keys[..|keys| - 1]) + [StampOf(dd, keys[|keys| - 1])]
  }

  /** The sensor part of the device-data listing, over the properties
      `keys` (the listing reads `SensorKeys`): their latest values and
      `last_message_time`. `raised` reports a property with an empty list or
      a timestamp that is not a string (comparing it with `>` raises). */
  method SensorSummary(dd: Option<DeviceData>, keys: seq<string>)
    returns (raised: bool, values: seq<Value>, lastMessageTime: string)
    ensures raised <==> exists i :: 0 <= i < |keys| && !Readable(dd, keys[i])
    ensures !raised ==> (|values| == |keys| &&
              forall i :: 0 <= i < |keys| ==> values[i] == GetLatestVal(dd, keys[i]).value.0)
    ensures !raised ==> lastMessageTime == ShownTime(Latest(Epoch, Stamps(dd, keys)))
  {
    values := [];
    var last := Epoch;
    ghost var stamps: seq<string> := [];
    var i := 0;
    while i < |keys|
      invariant i <= |keys|
      invariant Summarized(dd, keys, i, values, stamps, last)
    {
      var reading := GetLatestVal(dd, keys[i]);
      if !(reading.Ok? && reading.value.1.Str?) {
        assert !Readable(dd, keys[i]);
        return true, [], "";
      }
      var val := reading.value.0;
      var ts := reading.value.1.s;
      SummaryStep(dd, keys, i, values, stamps, last);
      values := values + [val];
      stamps := stamps + [ts];
      if StrLt(last, ts) {
        last := ts;
      }
      i := i + 1;
    }
    SummaryDone(dd, keys, values, stamps, last);
    raised := false;
    lastMessageTime := ShownTime(last);
  }

  /** What the loop of `SensorSummary` has gathered after `i` properties. */
  ghost predicate Summarized(dd: Option<DeviceData>, keys: seq<string>, i: nat,
                             values: seq<Value>, stamps: seq<string>, last: string)
  {
    i <= |keys| &&
    (forall j :: 0 <= j < i ==> Readable(dd, keys[j])) &&
    |values| == i &&
    (forall j :: 0 <= j < i ==> values[j] == GetLatestVal(dd, keys[j]).value.0) &&
    stamps == Stamps(dd, keys[..i]) &&
    last == Latest(Epoch, stamps)
  }

  /** One more readable property adds its value and timestamp at the end
      and one step to the fold. */
  lemma SummaryStep(dd: Option<DeviceData>, keys: seq<string>, i: nat,
                    values: seq<Value>, stamps: seq<string>, last: string)
    requires i < |keys| && Readable(dd, keys[i]) && Summarized(dd, keys, i, values, stamps, last)
    ensures Summarized(dd, keys, i + 1, values + [GetLatestVal(dd, keys[i]).value.0],
                       stamps + [GetLatestVal(dd, keys[i]).value.1.s],
                       LaterOf(last, GetLatestVal(dd, keys[i]).value.1.s))
  {
    var ts := GetLatestVal(dd, keys[i]).value.1.s;
    assert keys[..i + 1][..i] == keys[..i];
    assert Stamps(dd, keys[..i + 1]) == stamps + [ts];
    LatestStep(Epoch, stamps, ts);
  }

  /** After every property, the gathered values and stamps are the whole
      listing's. */
  lemma SummaryDone(dd: Option<DeviceData>, keys: seq<string>,
                    values: seq<Value>, stamps: seq<string>, last: string)
    requires Summarized(dd, keys, |keys|, values, stamps, last)
    ensures forall j :: 0 <= j < |keys| ==> Readable(dd, keys[j])
    ensures |values| == |keys| && forall j :: 0 <= j < |keys| ==> values[j] == GetLatestVal(dd, keys[j]).value.0
    ensures last == Latest(Epoch, Stamps(dd, keys))
  {
    assert keys[..|keys|] == keys;
  }

  /** One more stamp is one more fold step. */
  lemma LatestStep(acc: string, stamps: seq<string>, t: string)
    ensures Latest(acc, stamps + [t]) == LaterOf(Latest(acc, stamps), t)
  {
    assert (stamps + [t])[..|stamps|] == stamps;
  }

  // ---------------------------------------------------------------------
  // Staleness

  /** How long ago a device last sent a message. */
  datatype Staleness = NeverSeen | MinutesAgo(minutes: int)

  /** Python's `int(x / 60.0)` on a whole number of seconds: the quotient
      truncated toward zero. */
  function TruncMinutes(seconds: int): (m: int)
    ensures seconds >= 0 ==> 0 <= seconds - 60 * m < 60
    ensures seconds < 0 ==> -60 < seconds - 60 * m <= 0
  {
    if seconds >= 0 then seconds / 60 else -((-seconds) / 60)
  }

  /** `get_minutes_since_UTC_timestamp(ts)` at `now`: `Never` is passed
      through; otherwise `parse` (`strptime`, seconds on the clock's scale,
      `None` where it raises) gives the instant, and the whole minutes since
      then are reported. */
  function MinutesSince(ts: string, parse: string -> Option<int>, now: int): (r: Result<Staleness>)
    ensures ts == NeverText ==> r == Ok(NeverSeen)
    ensures ts != NeverText ==> (r.Raised? <==> parse(ts).None?)
    ensures ts != NeverText && r.Ok? ==> (r.value.MinutesAgo? &&
              (now >= parse(ts).value ==> 0 <= now - parse(ts).value - 60 * r.value.minutes < 60) &&
              (now < parse(ts).value ==> -60 < now - parse(ts).value - 60 * r.value.minutes <= 0))
  {
    if ts == NeverText then Ok(NeverSeen)
    else match parse(ts)
      case None => Raised
      case Some(t) => Ok(MinutesAgo(TruncMinutes(now - t)))
  }

  /** A device without a message later than the epoch is reported as never
      seen, whatever the clock and the parser. */
  lemma SilentDeviceNeverSeen(stamps: seq<string>, parse: string -> Option<int>, now: int)
    requires forall t :: t in stamps ==> !StrLt(Epoch, t)
    ensures MinutesSince(ShownTime(Latest(Epoch, stamps)), parse, now) == Ok(NeverSeen)
  {
    LastMessageTimeSpec(stamps);
  }

  // ---------------------------------------------------------------------
  // Devices active in the last hour

  /** Whether one `DeviceData` entity counts as active: its newest status
      entry has a `bytes` timestamp later than `oneHourAgo`. An entity without
      a status list is skipped, and so is a timestamp that is not `bytes`
      (its `decode` raises inside the `try`); an empty status list raises. */
  function StatusCounted(e: DeviceData, oneHourAgo: string): (r: Result<bool>)
    ensures r.Raised? <==> StatusKey in e && |e[StatusKey]| == 0
    ensures r == Ok(true) <==> (StatusKey in e && |e[StatusKey]| > 0 &&
              DictGetOr(e[StatusKey][0], TimestampKey, Bytes("")).Bytes? &&
              StrLt(oneHourAgo, DictGetOr(e[StatusKey][0], TimestampKey, Bytes("")).text))
  {
    if StatusKey !in e then Ok(false)
    else if |e[StatusKey]| == 0 then Raised
    else match DictGetOr(e[StatusKey][0], TimestampKey, Bytes(""))
      case Bytes(t) => Ok(StrLt(oneHourAgo, t))
      case _ => Ok(false)
  }

  /** The number of active entities, or `Raised` if one of them raises. */
  function ActiveCount(es: seq<DeviceData>, oneHourAgo: string): (r: Result<nat>)
    ensures r.Raised? <==> exists i :: 0 <= i < |es| && StatusCounted(es[i], oneHourAgo).Raised?
    ensures r.Ok? ==> r.value <= |es|
  {
    if |es| == 0 then Ok(0)
    else
      var init := es[..|es| - 1];
      assert forall i :: 0 <= i < |init| ==> init[i] == es[i];
      match ActiveCount(init, oneHourAgo)
      case Raised => Raised
      case Ok(n) =>
        match StatusCounted(es[|es| - 1], oneHourAgo)
        case Raised => Raised
        case Ok(b) => Ok(n + (if b then 1 else 0))
  }

  /** `get_DeviceData_active_last_hour_count_from_DS()` over the fetched
      entities, with the clock's one-hour-ago instant already formatted.
      `raised` reports an entity with an empty status list. */
  method ActiveLastHourCount(entities: seq<DeviceData>, oneHourAgo: string) returns (raised: bool, count: nat)
    ensures raised <==> ActiveCount(entities, oneHourAgo).Raised?
    ensures !raised ==> count == ActiveCount(entities, oneHourAgo).value
  {
    count := 0;
    var i := 0;
    while i < |entities|
      invariant 0 <= i <= |entities|
      invariant ActiveCount(entities[..i], oneHourAgo) == Ok(count)
    {
      assert entities[..i + 1][..i] == entities[..i];
      var counted := StatusCounted(entities[i], oneHourAgo);
      if counted.Raised? {
        assert entities[..i + 1][i] == entities[i];
        PrefixRaises(entities, i + 1, oneHourAgo);
        return true, 0;
      }
      if counted.value {
        count := count + 1;
      }
      i := i + 1;
    }
    assert entities[..i] == entities;
    raised := false;
  }

  /** A prefix that raises makes the whole list raise. */
  lemma PrefixRaises(es: seq<DeviceData>, k: nat, oneHourAgo: string)
    requires k <= |es| && ActiveCount(es[..k], oneHourAgo).Raised?
    ensures ActiveCount(es, oneHourAgo).Raised?
  {
    var i :| 0 <= i < k && StatusCounted(es[..k][i], oneHourAgo).Raised?;
    assert es[..k][i] == es[i];
  }

  /** An earlier threshold counts at least as many devices. */
  lemma {:induction false} ActiveCountMonotone(es: seq<DeviceData>, earlier: string, later: string)
    requires !StrLt(later, earlier)
    requires ActiveCount(es, later).Ok?
    ensures ActiveCount(es, earlier).Ok?
    ensures ActiveCount(es, earlier).value >= ActiveCount(es, later).value
  {
    if |es| > 0 {
      var init := es[..|es| - 1];
      var e := es[|es| - 1];
      ActiveCountMonotone(init, earlier, later);
      if StatusCounted(e, later) == Ok(true) {
        var t := DictGetOr(e[StatusKey][0], TimestampKey, Bytes("")).text;
        StrLtTotal(earlier, later);
        if earlier != later {
          StrLtTransitive(earlier, later, t);
        }
      }
    }
  }

  // ---------------------------------------------------------------------
  // Latest user session

  /** A `UserSession` entity: its user and its formatted `created_date`,
      `None` where the entity has none (formatting the `''` default raises). */
  datatype Session = Session(user: string, created: Option<string>)

  /** `d` is the latest formatted creation date among `user`'s sessions: it
      is one of them, every one of them has a date, and none is later. */
  ghost predicate IsLatest(s: map<nat, Session>, user: string, d: string) {
    (exists k :: k in s && s[k].user == user && s[k].created == Some(d)) &&
    forall k :: k in s && s[k].user == user ==> s[k].created.Some? && !StrLt(d, s[k].created.value)
  }

  /** The sessions left after pruning `user`'s sessions dated other than `d`. */
  function Pruned(s: map<nat, Session>, user: string, d: string): map<nat, Session> {
    map k | k in s && !(s[k].user == user && s[k].created != Some(d)) :: s[k]
  }

  /** The latest date is unique. */
  lemma LatestUnique(s: map<nat, Session>, user: string, d1: string, d2: string)
    requires IsLatest(s, user, d1) && IsLatest(s, user, d2)
    ensures d1 == d2
  {
    var k1 :| k1 in s && s[k1].user == user && s[k1].created == Some(d1);
    var k2 :| k2 in s && s[k2].user == user && s[k2].created == Some(d2);
    StrLtTotal(d1, d2);
  }

  /** After pruning, the user keeps at least one session and every session
      kept is dated `d`; other users' sessions are all kept; and pruning
      again changes nothing. */
  lemma PrunedKeepsLatestOnly(s: map<nat, Session>, user: string, d: string)
    requires IsLatest(s, user, d)
    ensures exists k :: k in Pruned(s, user, d) && Pruned(s, user, d)[k].user == user
    ensures forall k :: k in Pruned(s, user, d) && Pruned(s, user, d)[k].user == user ==>
              Pruned(s, user, d)[k].created == Some(d)
    ensures forall k :: k in s && s[k].user != user ==> k in Pruned(s, user, d) && Pruned(s, user, d)[k] == s[k]
    ensures IsLatest(Pruned(s, user, d), user, d)
    ensures Pruned(Pruned(s, user, d), user, d) == Pruned(s, user, d)
  {
    var k :| k in s && s[k].user == user && s[k].created == Some(d);
    assert k in Pruned(s, user, d);
    StrLtIrreflexive(d);
  }

  /** The `UserSession` entities of the document store, by key. */
  class SessionStore {
    var sessions: map<nat, Session>

    constructor (initial: map<nat, Session>)
      ensures sessions == initial
    {
      sessions := initial;
    }

    /** The keys of `user`'s sessions. */
    function Mine(user: string): (r: set<nat>)
      reads this
      ensures forall k :: k in r <==> k in sessions && sessions[k].user == user
    {
      set k | k in sessions && sessions[k].user == user
    }

    /** Some session of `user` has no creation date. */
    predicate MissingDate(user: string)
      reads this
    {
      exists k :: k in sessions && sessions[k].user == user && sessions[k].created.None?
    }

    /** `get_all_from_DS(UserSession, 'user_uuid', user)`: the keys of the
        user's sessions, each once, in some order. */
    method GetAll(user: string) returns (keys: seq<nat>)
      ensures forall k :: k in keys <==> k in Mine(user)
      ensures forall i, j :: 0 <= i < j < |keys| ==> keys[i] != keys[j]
    {
      keys := [];
      var rest := sessions.Keys;
      while rest != {}
        invariant rest <= sessions.Keys
        invariant forall k :: k in keys <==> k in Mine(user) && k !in rest
        invariant forall i, j :: 0 <= i < j < |keys| ==> keys[i] != keys[j]
        decreases rest
      {
        var k :| k in rest;
        if sessions[k].user == user {
          keys := keys + [k];
        }
        rest := rest - {k};
      }
    }

    /** `datastore_client.delete(key)`. */
    method Delete(k: nat)
      modifies this
      ensures sessions == old(sessions) - {k}
    {
      sessions := sessions - {k};
    }

    /** `get_latest_user_session_created_date_from_DS(user)`: `None` when the
        user has no session; `Raised` (before anything is deleted) when one
        of them has no date; otherwise the latest date, after deleting every
        session of the user dated differently. */
    method LatestCreatedDate(user: string) returns (r: Result<Option<string>>)
      modifies this
      ensures old(Mine(user)) == {} ==> r == Ok(None) && sessions == old(sessions)
      ensures old(Mine(user)) != {} && old(MissingDate(user)) ==> r == Raised && sessions == old(sessions)
      ensures old(Mine(user)) != {} && !old(MissingDate(user)) ==>
                r.Ok? && r.value.Some? && IsLatest(old(sessions), user, r.value.value) &&
                sessions == Pruned(old(sessions), user, r.value.value)
    {
      var keys := GetAll(user);
      if |keys| == 0 {
        assert forall k :: k !in Mine(user);
        return Ok(None);
      }
      var latest, raised := LatestOf(keys, user);
      if raised {
        return Raised;
      }
      PruneStale(keys, user, latest);
      r := Ok(Some(latest));
    }

    /** The first loop: the dates of the user's sessions, reduced to the
        greatest (the head of the descending sort). */
    method LatestOf(keys: seq<nat>, user: string) returns (latest: string, raised: bool)
      requires |keys| > 0
      requires forall k :: k in keys <==> k in Mine(user)
      ensures raised <==> MissingDate(user)
      ensures !raised ==> IsLatest(sessions, user, latest)
    {
      assert forall j :: 0 <= j < |keys| ==> keys[j] in Mine(user);
      ghost var best := keys[0];
      latest := "";
      var i := 0;
      while i < |keys|
        invariant 0 <= i <= |keys|
        invariant forall j :: 0 <= j < |keys| ==> keys[j] in sessions && sessions[keys[j]].user == user
        invariant forall j :: 0 <= j < i ==>
                    sessions[keys[j]].created.Some? && !StrLt(latest, sessions[keys[j]].created.value)
        invariant i > 0 ==> best in keys[..i] && sessions[best].created == Some(latest)
      {
        var d := sessions[keys[i]].created;
        if d.None? {
          return latest, true;
        }
        if i == 0 || StrLt(latest, d.value) {
          forall j | 0 <= j < i ensures !StrLt(d.value, sessions[keys[j]].created.value) {
            if StrLt(d.value, sessions[keys[j]].created.value) {
              StrLtTransitive(latest, d.value, sessions[keys[j]].created.value);
            }
          }
          latest := d.value;
          best := keys[i];
        }
        StrLtIrreflexive(latest);
        i := i + 1;
      }
      raised := false;
      forall k | k in sessions && sessions[k].user == user
        ensures sessions[k].created.Some? && !StrLt(latest, sessions[k].created.value)
      {
        assert k in keys;
        var j :| 0 <= j < |keys| && keys[j] == k;
      }
      assert best in sessions && sessions[best].user == user;
    }

    /** The second loop: delete every session of the user not dated
        `latest`. */
    method PruneStale(keys: seq<nat>, user: string, latest: string)
      modifies this
      requires forall k :: k in keys <==> k in Mine(user)
      requires forall i, j :: 0 <= i < j < |keys| ==> keys[i] != keys[j]
      ensures sessions == Pruned(old(sessions), user, latest)
    {
      ghost var start := sessions;
      ghost var stale: set<nat> := {};
      assert forall j :: 0 <= j < |keys| ==> keys[j] in Mine(user);
      var i := 0;
      while i < |keys|
        invariant 0 <= i <= |keys|
        invariant forall j :: 0 <= j < |keys| ==> keys[j] in start && start[keys[j]].user == user
        invariant stale == set j | 0 <= j < i && start[keys[j]].created != Some(latest) :: keys[j]
        invariant sessions == map k | k in start && k !in stale :: start[k]
      {
        var k := keys[i];
        assert forall j :: 0 <= j < i ==> keys[j] != k;
        assert k in sessions && sessions[k] == start[k];
        if sessions[k].created != Some(latest) {
          Delete(k);
          stale := stale + {k};
        }
        i := i + 1;
      }
      forall k | k in start
        ensures k in stale <==> start[k].user == user && start[k].created != Some(latest)
      {
        if start[k].user == user {
          assert k in keys;
        }
      }
    }
  }
}
