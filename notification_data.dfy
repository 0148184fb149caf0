/** The notifications of cc/notifications/notification_data.py: the device's
    `notifications` list, oldest first. The random identifier is drawn by
    `Utils.IdGenerator` from an injected random source; times are seconds on
    the injected clock. */
module NotificationData {
  import opened Common
  import opened Utils
  import opened DeviceStore

  const TypeOK: string := "OK"

  /** A stored notification, or the empty dict `{}` a fresh list may hold. */
  datatype NotifItem =
    | NotifEmpty
    | Notif(id: string, kind: string, message: string, created: int, acknowledged: Option<int>)
  {
    /** `n.get('ID')`. */
    function Id(): Option<string> {
      if Notif? then Some(id) else None
    }

    /** `n.get('acknowledged') is None`. */
    predicate Unacknowledged() {
      NotifEmpty? || acknowledged.None?
    }
  }

  /** The list `add` saves: the new notification replaces a lone empty dict,
      and is appended otherwise. */
  function Added(l: seq<NotifItem>, n: NotifItem): (r: seq<NotifItem>)
    ensures |l| == 1 && l[0] == NotifEmpty ==> r == [n]
    ensures !(|l| == 1 && l[0] == NotifEmpty) ==> r == l + [n]
    ensures |r| > 0 && r[|r| - 1] == n
  {
    if |l| == 1 && l[0] == NotifEmpty then [n] else l + [n]
  }

  /** `add(device_ID, message, notification_type)` at time `now`, with the
      identifier drawn from `draw`. Returns the identifier. `kind` is the
      `notification_type`, which callers that give none leave at `TypeOK`. */
  method Add(store: PropertyStore<string, NotifItem>, deviceId: string, message: string,
             kind: string, now: int, draw: nat -> nat) returns (id: string)
    modifies store
    ensures id == IdGenerator(6, Digits, draw).value && |id| == 6
    ensures store.lists == old(store.lists)[deviceId :=
              Added(old(store.Get(deviceId)), Notif(id, kind, message, now, None))]
  {
    DefaultIdIsSixDigits(draw);
    id := IdGenerator(6, Digits, draw).value;
    var notif := Notif(id, kind, message, now, None);
    var l := store.Get(deviceId);
    if |l| == 1 && l[0] == NotifEmpty {
      l := l[0 := notif];
      assert l == [notif];
    } else {
      l := l + [notif];
    }
    store.Save(deviceId, l);
  }

  /** The unacknowledged notifications, in their stored order. */
  function Unacked(l: seq<NotifItem>): (r: seq<NotifItem>)
    ensures |r| <= |l|
    ensures forall x :: x in r <==> x in l && x.Unacknowledged()
  {
    if |l| == 0 then []
    else (if l[0].Unacknowledged() then [l[0]] else []) + Unacked(l[1..])
  }

  /** Filtering works piecewise, so the order of the list is kept. */
  lemma {:induction false} UnackedAppend(a: seq<NotifItem>, b: seq<NotifItem>)
    ensures Unacked(a + b) == Unacked(a) + Unacked(b)
  {
    if |a| == 0 {
      assert a + b == b;
    } else {
      assert (a + b)[1..] == a[1..] + b;
      UnackedAppend(a[1..], b);
    }
  }

  /** `get_unacknowledged(device_ID)`. */
  method GetUnacknowledged(store: PropertyStore<string, NotifItem>, deviceId: string)
    returns (unacked: seq<NotifItem>)
    ensures unacked == Unacked(store.Get(deviceId))
  {
    unacked := [];
    var l := store.Get(deviceId);
    var i := 0;
    while i < |l|
      invariant 0 <= i <= |l|
      invariant unacked == Unacked(l[..i])
    {
      UnackedStep(l, i);
      if l[i].Unacknowledged() {
        unacked := unacked + [l[i]];
      }
      i := i + 1;
    }
    assert l[..i] == l;
  }

  /** One more element extends the filtered prefix by at most that element. */
  lemma UnackedStep(l: seq<NotifItem>, i: nat)
    requires i < |l|
    ensures Unacked(l[..i + 1]) == Unacked(l[..i]) + (if l[i].Unacknowledged() then [l[i]] else [])
  {
    UnackedAppend(l[..i], [l[i]]);
    assert l[..i + 1] == l[..i] + [l[i]];
  }

  /** The index of the first notification with identifier `id`. */
  function FirstWithId(l: seq<NotifItem>, id: string): (r: Option<nat>)
    ensures r.None? <==> forall i :: 0 <= i < |l| ==> l[i].Id() != Some(id)
    ensures r.Some? ==> r.value < |l| && l[r.value].Id() == Some(id)
    ensures r.Some? ==> forall i :: 0 <= i < r.value ==> l[i].Id() != Some(id)
  {
    if |l| == 0 then None
    else if l[0].Id() == Some(id) then Some(0)
    else match FirstWithId(l[1..], id)
      case None => None
      case Some(k) => Some(k + 1)
  }

  /** The list `ack` saves: the first notification with identifier `id`
      acknowledged at `now`; `None` when no notification matches (nothing is
      saved). */
  function Acked(l: seq<NotifItem>, id: string, now: int): (r: Option<seq<NotifItem>>)
    ensures r.None? <==> forall i :: 0 <= i < |l| ==> l[i].Id() != Some(id)
    ensures r.Some? ==> |r.value| == |l|
    ensures r.Some? ==> (exists k :: 0 <= k < |l| && FirstWithId(l, id) == Some(k) &&
                                     r.value == l[k := l[k].(acknowledged := Some(now))])
  {
    match FirstWithId(l, id)
    case None => None
    case Some(k) => Some(l[k := l[k].(acknowledged := Some(now))])
  }

  /** `ack(device_ID, notification_ID)` at time `now`. */
  method Ack(store: PropertyStore<string, NotifItem>, deviceId: string, id: string, now: int)
    modifies store
    ensures Acked(old(store.Get(deviceId)), id, now).None? ==> store.lists == old(store.lists)
    ensures Acked(old(store.Get(deviceId)), id, now).Some? ==>
              store.lists == old(store.lists)[deviceId := Acked(old(store.Get(deviceId)), id, now).value]
  {
    var l := store.Get(deviceId);
    var i := 0;
    while i < |l|
      invariant 0 <= i <= |l|
      invariant forall j :: 0 <= j < i ==> l[j].Id() != Some(id)
      invariant store.lists == old(store.lists)
    {
      if l[i].Id() == Some(id) {
        assert FirstWithId(l, id) == Some(i);
        l := l[i := l[i].(acknowledged := Some(now))];
        store.Save(deviceId, l);
        return;
      }
      i := i + 1;
    }
  }

  /** Acknowledging a notification changes only that notification and only
      its `acknowledged` time. */
  lemma AckedChangesOnlyTheMatch(l: seq<NotifItem>, id: string, now: int)
    requires Acked(l, id, now).Some?
    ensures forall i :: 0 <= i < |l| && l[i].Id() != Some(id) ==> Acked(l, id, now).value[i] == l[i]
    ensures forall i :: 0 <= i < |l| ==> Acked(l, id, now).value[i].Id() == l[i].Id()
  {
  }

  /** A notification added under a fresh identifier and then acknowledged is
      no longer listed as unacknowledged. */
  lemma AddThenAckHidesIt(l: seq<NotifItem>, id: string, kind: string, message: string,
                          created: int, now: int)
    requires forall i :: 0 <= i < |l| ==> l[i].Id() != Some(id)
    ensures Acked(Added(l, Notif(id, kind, message, created, None)), id, now).Some?
    ensures forall x :: x in Unacked(Acked(Added(l, Notif(id, kind, message, created, None)), id, now).value)
              ==> x.Id() != Some(id)
  {
    var n := Notif(id, kind, message, created, None);
    var a := Added(l, n);
    var k := |a| - 1;
    assert a[k] == n;
    forall i | 0 <= i < k ensures a[i].Id() != Some(id) {
      if |l| == 1 && l[0] == NotifEmpty {
      } else {
        assert a[i] == l[i];
      }
    }
    assert FirstWithId(a, id) == Some(k);
    var r := Acked(a, id, now).value;
    forall j | 0 <= j < |r| ensures r[j].Id() == Some(id) ==> !r[j].Unacknowledged() {
      if j != k {
        assert r[j] == a[j];
      }
    }
    forall x | x in Unacked(r) ensures x.Id() != Some(id) {
      var j :| 0 <= j < |r| && r[j] == x;
    }
  }
}
