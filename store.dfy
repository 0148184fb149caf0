/** The per-device property store behind `get_device_data_property`,
    `push_dict_onto_device_data_queue` and `save_list_as_device_data_queue`:
    each (device, property) names an ordered list, newest first, that a push
    extends at the front and trims to `MaxListSize`, and that a save overwrites
    as a whole. */
module DeviceStore {

  /** `DS_env_vars_MAX_size`, and the 100 runs that the run queue keeps. */
  const MaxListSize: nat := 100

  /** The list after pushing `x`: `x` first, then as much of the old list,
      oldest entries dropped, as fits under the cap. */
  function Pushed<T>(l: seq<T>, x: T): (r: seq<T>)
    ensures |r| == if |l| + 1 <= MaxListSize then |l| + 1 else MaxListSize
    ensures |r| > 0 && r[0] == x
    ensures r[1..] == l[..|r| - 1]
  {
    var full := [x] + l;
    if |full| <= MaxListSize then full else full[..MaxListSize]
  }

  /** Pushing onto a list that has room keeps every older entry. */
  lemma PushedKeepsAllWhenRoom<T>(l: seq<T>, x: T)
    requires |l| < MaxListSize
    ensures Pushed(l, x) == [x] + l
  {
  }

  /** The lists after pushing every element of `xs`, first element first. */
  function PushAll<T>(l: seq<T>, xs: seq<T>): (r: seq<T>)
    ensures |xs| > 0 ==> |r| > 0
    decreases |xs|
  {
    if |xs| == 0 then l else PushAll(Pushed(l, xs[0]), xs[1..])
  }

  /** However many pushes occur, a list that starts within the cap stays
      within it, and the last element pushed is at the front. */
  lemma {:induction false} PushAllBounded<T>(l: seq<T>, xs: seq<T>)
    requires |l| <= MaxListSize
    ensures |PushAll(l, xs)| <= MaxListSize
    ensures |xs| > 0 ==> PushAll(l, xs)[0] == xs[|xs| - 1]
    decreases |xs|
  {
    if |xs| > 0 {
      PushAllBounded(Pushed(l, xs[0]), xs[1..]);
      if |xs| == 1 {
        assert xs[1..] == [];
      } else {
        assert xs[1..][|xs[1..]| - 1] == xs[|xs| - 1];
      }
    }
  }

  /** The store does not deduplicate: pushing the same value twice leaves two
      copies at the front. */
  lemma PushTwiceKeepsBoth<T>(l: seq<T>, x: T)
    ensures |Pushed(Pushed(l, x), x)| >= 2
    ensures Pushed(Pushed(l, x), x)[0] == x && Pushed(Pushed(l, x), x)[1] == x
  {
  }

  /** The lists of one property kind, keyed by device (or by device and
      variable name for telemetry). A key never written reads as the empty
      list. */
  class PropertyStore<K(==), T> {
    var lists: map<K, seq<T>>

    constructor ()
      ensures lists == map[]
    {
      lists := map[];
    }

    /** `get_device_data_property`. */
    function Get(k: K): seq<T>
      reads this
    {
      if k in lists then lists[k] else []
    }

    /** `push_dict_onto_device_data_queue`. */
    method Push(k: K, x: T)
      modifies this
      ensures lists == old(lists)[k := Pushed(old(Get(k)), x)]
    {
      lists := lists[k := Pushed(Get(k), x)];
    }

    /** `save_list_as_device_data_queue`. */
    method Save(k: K, l: seq<T>)
      modifies this
      ensures lists == old(lists)[k := l]
    {
      lists := lists[k := l];
    }
  }
}
