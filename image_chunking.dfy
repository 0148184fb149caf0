/** The legacy image path of cc/mqtt/deprecated_image_chunking.py: old devices
    send an image as base64 chunks, one message each; every chunk is cached
    under an automatically generated key, and once every index is present the
    chunks are joined in `chunkNum` order. A "turd" records an image that was
    given up; later chunks of another image from the same device purge it.
    The clock is the parameter `now`; storing the decoded image, which yields
    its public URL, is the parameter `publicUrl`. */
module ImageChunking {
  import opened Common
  import opened BigQueryRows

  const VarNameKey: string := "varName"
  const ImageTypeKey: string := "imageType"
  const ChunkKey: string := "chunk"
  const TotalChunksKey: string := "totalChunks"
  const ImageChunkKey: string := "imageChunk"
  const MessageIdKey: string := "messageID"

  /** A cached chunk (a `MqttServiceCache` entity). */
  datatype ChunkEntry = ChunkEntry(deviceId: string, messageId: Value, varName: Value, imageType: Value,
                                   chunkNum: Value, totalChunks: Value, imageChunk: Value, timestamp: int)

  /** An abandoned image (a `MqttServiceTurds` entity). */
  datatype Turd = Turd(deviceId: string, messageId: Value, timestamp: int)

  /** `getImageChunksFromDatastore(deviceId, messageId)`. */
  function ChunksOf(cache: seq<ChunkEntry>, deviceId: string, messageId: Value): (r: seq<ChunkEntry>)
    ensures |r| <= |cache|
    ensures forall e :: e in r <==> e in cache && e.deviceId == deviceId && e.messageId == messageId
  {
    if |cache| == 0 then []
    else (if cache[0].deviceId == deviceId && cache[0].messageId == messageId then [cache[0]] else [])
         + ChunksOf(cache[1..], deviceId, messageId)
  }

  /** The cache after deleting the chunks of `deviceId` whose message id is in
      `ids`; `deleteImageChunksFromDatastore` is the case of one id. */
  function RemoveChunks(cache: seq<ChunkEntry>, deviceId: string, ids: set<Value>): (r: seq<ChunkEntry>)
    ensures |r| <= |cache|
  {
    if |cache| == 0 then []
    else (if cache[0].deviceId == deviceId && cache[0].messageId in ids then [] else [cache[0]])
         + RemoveChunks(cache[1..], deviceId, ids)
  }

  /** What the deletion keeps: every entry except those of `deviceId` with
      a message id in `ids`. */
  lemma {:induction false} RemoveChunksMembers(cache: seq<ChunkEntry>, deviceId: string, ids: set<Value>)
    ensures forall e :: e in RemoveChunks(cache, deviceId, ids) <==>
              e in cache && !(e.deviceId == deviceId && e.messageId in ids)
  {
    if |cache| > 0 {
      RemoveChunksMembers(cache[1..], deviceId, ids);
      assert cache == [cache[0]] + cache[1..];
    }
  }

  lemma {:induction false} RemoveChunksTwice(cache: seq<ChunkEntry>, deviceId: string, a: set<Value>, b: set<Value>)
    ensures RemoveChunks(RemoveChunks(cache, deviceId, a), deviceId, b) == RemoveChunks(cache, deviceId, a + b)
  {
    if |cache| > 0 {
      var c := cache[0];
      var rest := RemoveChunks(cache[1..], deviceId, a);
      RemoveChunksTwice(cache[1..], deviceId, a, b);
      if !(c.deviceId == deviceId && c.messageId in a) {
        var x := [c] + rest;
        assert x[0] == c && x[1..] == rest;
        assert RemoveChunks(cache, deviceId, a) == x;
        assert RemoveChunks(x, deviceId, b)
            == (if c.deviceId == deviceId && c.messageId in b then [] else [c]) + RemoveChunks(rest, deviceId, b);
        assert RemoveChunks(cache, deviceId, a + b)
            == (if c.deviceId == deviceId && c.messageId in a + b then [] else [c])
               + RemoveChunks(cache[1..], deviceId, a + b);
      } else {
        assert [] + rest == rest;
        assert [] + RemoveChunks(cache[1..], deviceId, a + b) == RemoveChunks(cache[1..], deviceId, a + b);
      }
    }
  }

  /** Deleting no message id keeps the cache. */
  lemma {:induction false} RemoveNoChunks(cache: seq<ChunkEntry>, deviceId: string)
    ensures RemoveChunks(cache, deviceId, {}) == cache
  {
    if |cache| > 0 {
      RemoveNoChunks(cache[1..], deviceId);
      assert cache == [cache[0]] + cache[1..];
    }
  }

  /** `getTurds(deviceId)`. */
  function TurdsOf(turds: seq<Turd>, deviceId: string): (r: seq<Turd>)
    ensures |r| <= |turds|
    ensures forall t :: t in r <==> t in turds && t.deviceId == deviceId
  {
    if |turds| == 0 then []
    else (if turds[0].deviceId == deviceId then [turds[0]] else []) + TurdsOf(turds[1..], deviceId)
  }

  /** The ledger after deleting the turds of `deviceId` whose message id is in
      `ids`; `deleteTurd` is the case of one id. */
  function RemoveTurds(turds: seq<Turd>, deviceId: string, ids: set<Value>): (r: seq<Turd>)
    ensures |r| <= |turds|
  {
    if |turds| == 0 then []
    else (if turds[0].deviceId == deviceId && turds[0].messageId in ids then [] else [turds[0]])
         + RemoveTurds(turds[1..], deviceId, ids)
  }

  /** What the deletion keeps: every entry except those of `deviceId` with
      a message id in `ids`. */
  lemma {:induction false} RemoveTurdsMembers(turds: seq<Turd>, deviceId: string, ids: set<Value>)
    ensures forall t :: t in RemoveTurds(turds, deviceId, ids) <==>
              t in turds && !(t.deviceId == deviceId && t.messageId in ids)
  {
    if |turds| > 0 {
      RemoveTurdsMembers(turds[1..], deviceId, ids);
      assert turds == [turds[0]] + turds[1..];
    }
  }

  lemma {:induction false} RemoveTurdsTwice(turds: seq<Turd>, deviceId: string, a: set<Value>, b: set<Value>)
    ensures RemoveTurds(RemoveTurds(turds, deviceId, a), deviceId, b) == RemoveTurds(turds, deviceId, a + b)
  {
    if |turds| > 0 {
      var t := turds[0];
      var rest := RemoveTurds(turds[1..], deviceId, a);
      RemoveTurdsTwice(turds[1..], deviceId, a, b);
      if !(t.deviceId == deviceId && t.messageId in a) {
        var x := [t] + rest;
        assert x[0] == t && x[1..] == rest;
        assert RemoveTurds(turds, deviceId, a) == x;
        assert RemoveTurds(x, deviceId, b)
            == (if t.deviceId == deviceId && t.messageId in b then [] else [t]) + RemoveTurds(rest, deviceId, b);
        assert RemoveTurds(turds, deviceId, a + b)
            == (if t.deviceId == deviceId && t.messageId in a + b then [] else [t])
               + RemoveTurds(turds[1..], deviceId, a + b);
      } else {
        assert [] + rest == rest;
        assert [] + RemoveTurds(turds[1..], deviceId, a + b) == RemoveTurds(turds[1..], deviceId, a + b);
      }
    }
  }

  /** Deleting no message id keeps the ledger. */
  lemma {:induction false} RemoveNoTurds(turds: seq<Turd>, deviceId: string)
    ensures RemoveTurds(turds, deviceId, {}) == turds
  {
    if |turds| > 0 {
      RemoveNoTurds(turds[1..], deviceId);
      assert turds == [turds[0]] + turds[1..];
    }
  }

  /** The message ids among `turds` that differ from `messageId`. */
  function StaleIds(turds: seq<Turd>, messageId: Value): (r: set<Value>)
    ensures messageId !in r
    ensures forall v :: v in r <==> v != messageId && exists j :: 0 <= j < |turds| && turds[j].messageId == v
    decreases |turds|
  {
    if |turds| == 0 then {}
    else
      var init := turds[..|turds| - 1];
      var last := turds[|turds| - 1];
      assert forall j :: 0 <= j < |init| ==> init[j] == turds[j];
      StaleIds(init, messageId) + (if last.messageId != messageId then {last.messageId} else {})
  }

  /** What the purge loop has done after the turds `done`: the ids of
      those other than `messageId` are `stale`, and their chunks and turds
      are gone. */
  ghost predicate Purged(chunks0: seq<ChunkEntry>, turds0: seq<Turd>, deviceId: string, done: seq<Turd>,
                         messageId: Value, stale: set<Value>, chunks: seq<ChunkEntry>, turds: seq<Turd>)
  {
    stale == StaleIds(done, messageId) &&
    chunks == RemoveChunks(chunks0, deviceId, stale) &&
    turds == RemoveTurds(turds0, deviceId, stale)
  }

  /** One more turd: a stale one has its chunks and turd deleted, the
      current image's is skipped. */
  lemma PurgeStep(chunks0: seq<ChunkEntry>, turds0: seq<Turd>, deviceId: string, bad: seq<Turd>, i: nat,
                  messageId: Value, stale: set<Value>, chunks: seq<ChunkEntry>, turds: seq<Turd>)
    requires i < |bad| && Purged(chunks0, turds0, deviceId, bad[..i], messageId, stale, chunks, turds)
    ensures bad[i].messageId == messageId ==>
              Purged(chunks0, turds0, deviceId, bad[..i + 1], messageId, stale, chunks, turds)
    ensures bad[i].messageId != messageId ==>
              Purged(chunks0, turds0, deviceId, bad[..i + 1], messageId, stale + {bad[i].messageId},
                     RemoveChunks(chunks, deviceId, {bad[i].messageId}),
                     RemoveTurds(turds, deviceId, {bad[i].messageId}))
  {
    StaleIdsStep(bad, i, messageId);
    RemoveChunksTwice(chunks0, deviceId, stale, {bad[i].messageId});
    RemoveTurdsTwice(turds0, deviceId, stale, {bad[i].messageId});
  }

  lemma StaleIdsStep(turds: seq<Turd>, i: nat, messageId: Value)
    requires i < |turds|
    ensures StaleIds(turds[..i + 1], messageId)
         == StaleIds(turds[..i], messageId) + (if turds[i].messageId != messageId then {turds[i].messageId} else {})
  {
    assert turds[..i + 1][..i] == turds[..i];
  }

  /** Python's `lst[i] = True` index check against a list of length `len`: an
      integer in `-len .. len-1`, negative ones counting from the end. */
  function PyIndex(c: Value, len: nat): (r: Option<nat>)
    ensures r.Some? <==> c.Num? && -(len as int) <= c.n < len
    ensures r.Some? ==> r.value < len
    ensures c.Num? && 0 <= c.n < len ==> r == Some(c.n)
  {
    if c.Num? && -(len as int) <= c.n < len then Some(if c.n < 0 then c.n + len else c.n) else None
  }

  /** `listOfChunksReceived` after marking the chunks `cs` in order, starting
      from `v`; an index error stops the marking. */
  function MarkChunks(v: seq<bool>, cs: seq<ChunkEntry>): (r: Result<seq<bool>>)
    ensures r.Ok? ==> |r.value| == |v|
    decreases |cs|
  {
    if |cs| == 0 then Ok(v)
    else match MarkChunks(v, cs[..|cs| - 1])
      case Raised => Raised
      case Ok(w) =>
        match PyIndex(cs[|cs| - 1].chunkNum, |w|)
        case None => Raised
        case Some(k) => Ok(w[k := true])
  }

  /** Marking succeeds exactly when every chunk number is a valid index, and
      then an index is marked exactly when it was marked before or some chunk
      names it. */
  lemma {:induction false} MarkChunksSpec(v: seq<bool>, cs: seq<ChunkEntry>)
    ensures MarkChunks(v, cs).Ok? <==> forall j :: 0 <= j < |cs| ==> PyIndex(cs[j].chunkNum, |v|).Some?
    ensures MarkChunks(v, cs).Ok? ==>
              forall k :: 0 <= k < |v| ==>
                (MarkChunks(v, cs).value[k] <==>
                   v[k] || Covered(cs, |v|, k))
    decreases |cs|
  {
    if |cs| > 0 {
      var init := cs[..|cs| - 1];
      MarkChunksSpec(v, init);
      var last := cs[|cs| - 1];
      assert forall j :: 0 <= j < |init| ==> init[j] == cs[j];
      if MarkChunks(v, init).Ok? && PyIndex(last.chunkNum, |v|).Some? {
        var w := MarkChunks(v, init).value;
        var m := PyIndex(last.chunkNum, |v|).value;
        forall k | 0 <= k < |v|
          ensures MarkChunks(v, cs).value[k] <==>
                    v[k] || Covered(cs, |v|, k)
        {
          if k == m {
            assert PyIndex(cs[|cs| - 1].chunkNum, |v|) == Some(k);
          } else if MarkChunks(v, cs).value[k] && !v[k] {
            var j :| 0 <= j < |init| && PyIndex(init[j].chunkNum, |v|) == Some(k);
            assert PyIndex(cs[j].chunkNum, |v|) == Some(k);
          } else if Covered(cs, |v|, k) {
            var j :| 0 <= j < |cs| && PyIndex(cs[j].chunkNum, |v|) == Some(k);
            assert j < |init|;
            assert PyIndex(init[j].chunkNum, |v|) == Some(k);
          }
        }
      }
    }
  }

  /** The all-`False` list of `range(0, n)`. */
  function Falses(n: int): (r: seq<bool>)
    ensures |r| == if n < 0 then 0 else n
    ensures forall k :: 0 <= k < |r| ==> !r[k]
  {
    seq(if n < 0 then 0 else n, _ => false)
  }

  /** The presence vector of `save_old_chunked_image`: `range(0, totalChunks)`
      raises unless `totalChunks` is an integer, and marking raises on a chunk
      number that is not a valid index. */
  function Presence(totalChunks: Value, cs: seq<ChunkEntry>): Result<seq<bool>> {
    if totalChunks.Num? then MarkChunks(Falses(totalChunks.n), cs) else Raised
  }

  predicate AllTrue(v: seq<bool>) {
    forall k :: 0 <= k < |v| ==> v[k]
  }

  /** Every index `0 .. n-1` is named by the chunk number of some chunk, with
      Python's negative indices counting from the end. */
  predicate Complete(cs: seq<ChunkEntry>, n: nat) {
    forall k :: 0 <= k < n ==> Covered(cs, n, k)
  }

  /** Some chunk's number names index `k` of a list of length `n`. */
  predicate Covered(cs: seq<ChunkEntry>, n: nat, k: nat) {
    exists j :: 0 <= j < |cs| && PyIndex(cs[j].chunkNum, n) == Some(k)
  }

  /** Some chunk is numbered `k`. */
  predicate Numbered(cs: seq<ChunkEntry>, k: int) {
    exists j :: 0 <= j < |cs| && cs[j].chunkNum == Num(k)
  }

  /** Assembly proceeds exactly when every index is covered; a chunk number
      outside the vector, or a count that is not an integer, raises. */
  lemma PresenceDecides(totalChunks: Value, cs: seq<ChunkEntry>)
    ensures Presence(totalChunks, cs).Ok? <==>
              totalChunks.Num? && forall j :: 0 <= j < |cs| ==> PyIndex(cs[j].chunkNum, |Falses(totalChunks.n)|).Some?
    ensures Presence(totalChunks, cs).Ok? ==>
              (AllTrue(Presence(totalChunks, cs).value) <==> Complete(cs, |Falses(totalChunks.n)|))
  {
    if totalChunks.Num? {
      MarkChunksSpec(Falses(totalChunks.n), cs);
    }
  }

  /** A chunk numbered at or beyond the count makes the presence vector raise. */
  lemma ChunkBeyondCountRaises(n: nat, cs: seq<ChunkEntry>, j: nat)
    requires j < |cs| && cs[j].chunkNum.Num? && cs[j].chunkNum.n >= n
    ensures Presence(Num(n), cs).Raised?
  {
    MarkChunksSpec(Falses(n), cs);
  }

  /** With non-negative chunk numbers, covering means every index `0 .. n-1`
      is literally some chunk's number. */
  lemma CompleteWithNaturalNumbers(cs: seq<ChunkEntry>, n: nat)
    requires forall j :: 0 <= j < |cs| ==> cs[j].chunkNum.Num? && 0 <= cs[j].chunkNum.n < n
    ensures Complete(cs, n) <==> forall k :: 0 <= k < n ==> Numbered(cs, k)
  {
    if Complete(cs, n) {
      forall k | 0 <= k < n ensures Numbered(cs, k) {
        assert Covered(cs, n, k);
        var j :| 0 <= j < |cs| && PyIndex(cs[j].chunkNum, n) == Some(k);
        assert cs[j].chunkNum == Num(k);
      }
    }
    if forall k :: 0 <= k < n ==> Numbered(cs, k) {
      forall k | 0 <= k < n ensures Covered(cs, n, k) {
        assert Numbered(cs, k);
        var j :| 0 <= j < |cs| && cs[j].chunkNum == Num(k);
        assert PyIndex(cs[j].chunkNum, n) == Some(k);
      }
    }
  }

  /** The sort key `k['chunkNum']`; every cached chunk reaching the sort has an
      integer number, since marking would have raised otherwise. */
  function Key(e: ChunkEntry): int {
    if e.chunkNum.Num? then e.chunkNum.n else 0
  }

  predicate SortedByKey(s: seq<ChunkEntry>) {
    forall a, b :: 0 <= a < b < |s| ==> Key(s[a]) <= Key(s[b])
  }

  predicate DistinctKeys(s: seq<ChunkEntry>) {
    forall a, b :: 0 <= a < b < |s| ==> Key(s[a]) != Key(s[b])
  }

  /** Inserts `x` before the first element with a greater or equal key. */
  function Insert(x: ChunkEntry, s: seq<ChunkEntry>): (r: seq<ChunkEntry>)
    ensures |r| == |s| + 1
    ensures multiset(r) == multiset(s) + multiset{x}
    ensures forall y :: y in r <==> y == x || y in s
  {
    if |s| == 0 || Key(x) <= Key(s[0]) then [x] + s
    else
      assert s == [s[0]] + s[1..];
      [s[0]] + Insert(x, s[1..])
  }

  /** Inserting into a sorted list keeps it sorted, and keeps its keys
      distinct when the new key is new. */
  lemma {:induction false} InsertSorted(x: ChunkEntry, s: seq<ChunkEntry>)
    requires SortedByKey(s)
    ensures SortedByKey(Insert(x, s))
    ensures DistinctKeys(s) && (forall y :: y in s ==> Key(y) != Key(x)) ==> DistinctKeys(Insert(x, s))
  {
    if |s| > 0 && Key(x) > Key(s[0]) {
      var t := Insert(x, s[1..]);
      InsertSorted(x, s[1..]);
      var newKey := DistinctKeys(s) && (forall y :: y in s ==> Key(y) != Key(x));
      forall i | 0 <= i < |t|
        ensures Key(s[0]) <= Key(t[i]) && (newKey ==> Key(s[0]) != Key(t[i]))
      {
        HeadBeforeInsert(x, s, t[i]);
      }
      ConsSorted(s[0], t);
      assert Insert(x, s) == [s[0]] + t;
    } else {
      forall i | 0 <= i < |s|
        ensures Key(x) <= Key(s[i])
        ensures (forall y :: y in s ==> Key(y) != Key(x)) ==> Key(x) != Key(s[i])
      {
        assert s[i] in s;
      }
      ConsSorted(x, s);
    }
  }

  lemma HeadBeforeInsert(x: ChunkEntry, s: seq<ChunkEntry>, y: ChunkEntry)
    requires SortedByKey(s) && |s| > 0 && Key(x) > Key(s[0]) && y in Insert(x, s[1..])
    ensures Key(s[0]) <= Key(y)
    ensures DistinctKeys(s) && (forall z :: z in s ==> Key(z) != Key(x)) ==> Key(s[0]) != Key(y)
  {
    if y != x {
      HeadBeforeTail(s, y);
    } else if DistinctKeys(s) && (forall z :: z in s ==> Key(z) != Key(x)) {
      assert s[0] in s;
    }
  }

  lemma HeadBeforeTail(s: seq<ChunkEntry>, y: ChunkEntry)
    requires SortedByKey(s) && |s| > 0 && y in s[1..]
    ensures Key(s[0]) <= Key(y)
    ensures DistinctKeys(s) ==> Key(s[0]) != Key(y)
  {
    var j :| 0 <= j < |s[1..]| && s[1..][j] == y;
    assert s[j + 1] == y;
  }

  lemma ConsSorted(h: ChunkEntry, t: seq<ChunkEntry>)
    requires SortedByKey(t) && forall i :: 0 <= i < |t| ==> Key(h) <= Key(t[i])
    ensures SortedByKey([h] + t)
    ensures DistinctKeys(t) && (forall i :: 0 <= i < |t| ==> Key(h) != Key(t[i])) ==> DistinctKeys([h] + t)
  {
    var r := [h] + t;
    forall a, b | 0 <= a < b < |r| ensures Key(r[a]) <= Key(r[b]) {
      assert r[b] == t[b - 1];
      if a > 0 { assert r[a] == t[a - 1]; }
    }
    if DistinctKeys(t) && (forall i :: 0 <= i < |t| ==> Key(h) != Key(t[i])) {
      forall a, b | 0 <= a < b < |r| ensures Key(r[a]) != Key(r[b]) {
        assert r[b] == t[b - 1];
        if a > 0 { assert r[a] == t[a - 1]; }
      }
    }
  }

  /** `sorted(oldChunks, key=lambda k: k['chunkNum'])`, Python's stable sort:
      a permutation of the chunks; each chunk is placed before the first
      chunk of the sorted rest whose key is not smaller. */
  function SortByChunkNum(cs: seq<ChunkEntry>): (r: seq<ChunkEntry>)
    ensures |r| == |cs|
    ensures multiset(r) == multiset(cs)
  {
    if |cs| == 0 then []
    else
      assert cs == [cs[0]] + cs[1..];
      Insert(cs[0], SortByChunkNum(cs[1..]))
  }

  /** The sort holds the same chunks it was given. */
  lemma SortByChunkNumSameChunks(cs: seq<ChunkEntry>)
    ensures forall y :: y in SortByChunkNum(cs) <==> y in cs
  {
    var r := SortByChunkNum(cs);
    forall y ensures y in r <==> y in cs {
      assert y in r <==> y in multiset(r);
      assert y in cs <==> y in multiset(cs);
    }
  }

  /** The sort orders by `chunkNum` and keeps distinct keys distinct. */
  lemma {:induction false} SortByChunkNumSorts(cs: seq<ChunkEntry>)
    ensures SortedByKey(SortByChunkNum(cs))
    ensures DistinctKeys(cs) ==> DistinctKeys(SortByChunkNum(cs))
  {
    if |cs| > 0 {
      var t := SortByChunkNum(cs[1..]);
      SortByChunkNumSorts(cs[1..]);
      InsertSorted(cs[0], t);
      if DistinctKeys(cs) {
        DistinctTail(cs);
        SortByChunkNumSameChunks(cs[1..]);
        forall y | y in t ensures Key(y) != Key(cs[0]) {
          var j :| 0 <= j < |cs[1..]| && cs[1..][j] == y;
          assert cs[j + 1] == y;
        }
      }
    }
  }

  lemma DistinctTail(cs: seq<ChunkEntry>)
    requires |cs| > 0 && DistinctKeys(cs)
    ensures DistinctKeys(cs[1..])
  {
    forall a, b | 0 <= a < b < |cs[1..]| ensures Key(cs[1..][a]) != Key(cs[1..][b]) {
      assert cs[1..][a] == cs[a + 1] && cs[1..][b] == cs[b + 1];
    }
  }

  /** `b64str` after the loop `b64str += oc['imageChunk']`; adding anything but
      a string to a string raises. */
  function ConcatPayloads(cs: seq<ChunkEntry>): Result<string>
    decreases |cs|
  {
    if |cs| == 0 then Ok("")
    else match ConcatPayloads(cs[..|cs| - 1])
      case Raised => Raised
      case Ok(s) =>
        if cs[|cs| - 1].imageChunk.Str? then Ok(s + cs[|cs| - 1].imageChunk.s) else Raised
  }

  /** The first chunk numbered `k`, if any. */
  function FirstNumbered(cs: seq<ChunkEntry>, k: int): (r: Option<ChunkEntry>)
    ensures r.None? <==> forall j :: 0 <= j < |cs| ==> cs[j].chunkNum != Num(k)
    ensures r.Some? ==> r.value in cs && r.value.chunkNum == Num(k)
  {
    if |cs| == 0 then None
    else if cs[0].chunkNum == Num(k) then Some(cs[0])
    else FirstNumbered(cs[1..], k)
  }

  /** The image the protocol means to rebuild: for each index `0 .. n-1` in
      turn, the payload of the first cached chunk with that number, each index
      used once whatever the number of copies cached. */
  function AssembleByIndex(cs: seq<ChunkEntry>, n: nat): Result<string>
    decreases n
  {
    if n == 0 then Ok("")
    else JoinNext(AssembleByIndex(cs, n - 1), FirstNumbered(cs, n - 1))
  }

  /** One step of the intended assembly: the payload of the next index's
      chunk appended, raising when that chunk is missing or not text. */
  function JoinNext(acc: Result<string>, next: Option<ChunkEntry>): Result<string> {
    match acc
    case Raised => Raised
    case Ok(s) =>
      match next
      case None => Raised
      case Some(e) => if e.imageChunk.Str? then Ok(s + e.imageChunk.s) else Raised
  }

  predicate HasKey(s: seq<ChunkEntry>, k: int) {
    exists j :: 0 <= j < |s| && Key(s[j]) == k
  }

  /** Strictly increasing integers below `n` that take every value below `n`
      are exactly `0 .. n-1`. */
  lemma {:induction false} StrictCover(s: seq<ChunkEntry>, n: nat)
    requires SortedByKey(s) && DistinctKeys(s)
    requires forall j :: 0 <= j < |s| ==> 0 <= Key(s[j]) < n
    requires forall k :: 0 <= k < n ==> HasKey(s, k)
    ensures |s| == n
    ensures forall i :: 0 <= i < |s| ==> Key(s[i]) == i
  {
    forall i | 0 <= i < |s| ensures Key(s[i]) == i {
      KeyAtIndex(s, n, i);
    }
    if n > 0 {
      assert HasKey(s, n - 1);
      var j :| 0 <= j < |s| && Key(s[j]) == n - 1;
    }
    if |s| > 0 {
      assert Key(s[|s| - 1]) == |s| - 1;
    }
  }

  lemma {:induction false} KeyAtIndex(s: seq<ChunkEntry>, n: nat, i: nat)
    requires SortedByKey(s) && DistinctKeys(s)
    requires forall j :: 0 <= j < |s| ==> 0 <= Key(s[j]) < n
    requires forall k :: 0 <= k < n ==> HasKey(s, k)
    requires i < |s|
    ensures Key(s[i]) == i
    decreases i
  {
    forall j | 0 <= j < i ensures Key(s[j]) == j {
      KeyAtIndex(s, n, j);
    }
    if i > 0 {
      assert Key(s[i]) > Key(s[i - 1]);
    }
    assert Key(s[i]) >= i;
    assert HasKey(s, i);
    var j :| 0 <= j < |s| && Key(s[j]) == i;
    assert j >= i;
  }

  /** With one chunk per index and no other chunk, the sorted cache holds the
      chunk numbered `i` at position `i`. */
  lemma SortedPositions(cs: seq<ChunkEntry>, n: nat)
    requires forall j :: 0 <= j < |cs| ==> cs[j].chunkNum.Num? && 0 <= cs[j].chunkNum.n < n
    requires DistinctKeys(cs)
    requires Complete(cs, n)
    ensures |cs| == n
    ensures forall i :: 0 <= i < n ==> SortByChunkNum(cs)[i].chunkNum == Num(i)
  {
    var s := SortByChunkNum(cs);
    SortByChunkNumSorts(cs);
    SortByChunkNumSameChunks(cs);
    CompleteWithNaturalNumbers(cs, n);
    forall j | 0 <= j < |s| ensures 0 <= Key(s[j]) < n && s[j].chunkNum.Num? {
      assert s[j] in cs;
    }
    forall k | 0 <= k < n ensures HasKey(s, k) {
      assert Numbered(cs, k);
      var j :| 0 <= j < |cs| && cs[j].chunkNum == Num(k);
      assert cs[j] in s;
    }
    StrictCover(s, n);
  }

  /** ... and joining it gives the intended image: the payloads in ascending
      `chunkNum` order, whatever order the cache returned them in. */
  lemma AssemblyInIndexOrder(cs: seq<ChunkEntry>, n: nat)
    requires forall j :: 0 <= j < |cs| ==> cs[j].chunkNum.Num? && 0 <= cs[j].chunkNum.n < n
    requires DistinctKeys(cs)
    requires Complete(cs, n)
    ensures ConcatPayloads(SortByChunkNum(cs)) == AssembleByIndex(cs, n)
  {
    var s := SortByChunkNum(cs);
    SortedPositions(cs, n);
    SortByChunkNumSameChunks(cs);
    SortedFirsts(cs, s, n);
    PrefixAssembly(cs, s, n, n);
    assert s[..n] == s;
  }

  lemma SortedFirsts(cs: seq<ChunkEntry>, s: seq<ChunkEntry>, n: nat)
    requires |s| == n && DistinctKeys(cs)
    requires forall i :: 0 <= i < n ==> s[i].chunkNum == Num(i)
    requires forall y :: y in s ==> y in cs
    ensures forall i :: 0 <= i < n ==> FirstNumbered(cs, i) == Some(s[i])
  {
    forall i | 0 <= i < n ensures FirstNumbered(cs, i) == Some(s[i]) {
      FirstNumberedIsUnique(cs, s[i]);
    }
  }

  /** With distinct keys, the first chunk with a chunk's number is that chunk. */
  lemma FirstNumberedIsUnique(cs: seq<ChunkEntry>, e: ChunkEntry)
    requires DistinctKeys(cs) && e in cs && e.chunkNum.Num?
    ensures FirstNumbered(cs, e.chunkNum.n) == Some(e)
  {
    var b :| 0 <= b < |cs| && cs[b] == e;
    var f := FirstNumbered(cs, e.chunkNum.n).value;
    var a :| 0 <= a < |cs| && cs[a] == f;
    assert Key(cs[a]) == Key(cs[b]);
  }

  lemma {:induction false} PrefixAssembly(cs: seq<ChunkEntry>, s: seq<ChunkEntry>, n: nat, m: nat)
    requires m <= n == |s|
    requires forall i :: 0 <= i < n ==> FirstNumbered(cs, i) == Some(s[i])
    ensures ConcatPayloads(s[..m]) == AssembleByIndex(cs, m)
    decreases m
  {
    if m > 0 {
      PrefixAssembly(cs, s, n, m - 1);
      assert s[..m][..m - 1] == s[..m - 1];
    } else {
      assert s[..m] == [];
    }
    if m == n {
      assert s[..m] == s;
    }
  }

  /** Whatever order the cache returns distinct chunks in, the intended image
      is the same. */
  lemma AssembleByIndexOrderFree(cs1: seq<ChunkEntry>, cs2: seq<ChunkEntry>, n: nat)
    requires DistinctKeys(cs1) && DistinctKeys(cs2)
    requires forall e :: e in cs1 <==> e in cs2
    ensures AssembleByIndex(cs1, n) == AssembleByIndex(cs2, n)
  {
    forall k | 0 <= k < n ensures FirstNumbered(cs1, k) == FirstNumbered(cs2, k) {
      FirstNumberedOrderFree(cs1, cs2, k);
    }
    AssembleByIndexAgree(cs1, cs2, n);
  }

  /** Caches whose first chunks numbered `0 .. n-1` agree give the same
      intended image. */
  lemma {:induction false} AssembleByIndexAgree(cs1: seq<ChunkEntry>, cs2: seq<ChunkEntry>, n: nat)
    requires forall k :: 0 <= k < n ==> FirstNumbered(cs1, k) == FirstNumbered(cs2, k)
    ensures AssembleByIndex(cs1, n) == AssembleByIndex(cs2, n)
    decreases n
  {
    if n > 0 {
      AssembleByIndexAgree(cs1, cs2, n - 1);
    }
  }

  lemma FirstNumberedOrderFree(cs1: seq<ChunkEntry>, cs2: seq<ChunkEntry>, k: int)
    requires DistinctKeys(cs1) && DistinctKeys(cs2)
    requires forall e :: e in cs1 <==> e in cs2
    ensures FirstNumbered(cs1, k) == FirstNumbered(cs2, k)
  {
    if FirstNumbered(cs1, k).Some? {
      var e1 := FirstNumbered(cs1, k).value;
      assert e1 in cs2;
      var e2 := FirstNumbered(cs2, k).value;
      var b :| 0 <= b < |cs2| && cs2[b] == e2;
      var c :| 0 <= c < |cs2| && cs2[c] == e1;
      assert Key(cs2[b]) == Key(cs2[c]);
    } else {
      forall j | 0 <= j < |cs2| ensures cs2[j].chunkNum != Num(k) {
        assert cs2[j] in cs1;
      }
    }
  }

  /** A redelivered chunk, cached again under a new key, leaves the intended
      image unchanged. */
  lemma AssembleByIndexIgnoresRedelivery(cs: seq<ChunkEntry>, e: ChunkEntry, n: nat)
    requires exists j :: 0 <= j < |cs| && cs[j].chunkNum == e.chunkNum
    ensures AssembleByIndex(cs + [e], n) == AssembleByIndex(cs, n)
  {
    forall k | 0 <= k < n ensures FirstNumbered(cs + [e], k) == FirstNumbered(cs, k) {
      FirstNumberedAppend(cs, e, k);
    }
    AssembleByIndexAgree(cs + [e], cs, n);
  }

  lemma {:induction false} FirstNumberedAppend(cs: seq<ChunkEntry>, e: ChunkEntry, k: int)
    requires exists j :: 0 <= j < |cs| && cs[j].chunkNum == e.chunkNum
    ensures FirstNumbered(cs + [e], k) == FirstNumbered(cs, k)
  {
    if |cs| > 0 {
      assert (cs + [e])[1..] == cs[1..] + [e];
      if cs[0].chunkNum != Num(k) && cs[0].chunkNum != e.chunkNum {
        FirstNumberedAppend(cs[1..], e, k);
      } else if cs[0].chunkNum != Num(k) {
        FirstNumberedNone(cs[1..], e, k);
      }
    }
  }

  lemma {:induction false} FirstNumberedNone(cs: seq<ChunkEntry>, e: ChunkEntry, k: int)
    requires e.chunkNum != Num(k)
    ensures FirstNumbered(cs + [e], k) == FirstNumbered(cs, k)
  {
    if |cs| == 0 {
      assert FirstNumbered([e][1..], k) == None;
    } else {
      assert (cs + [e])[1..] == cs[1..] + [e];
      FirstNumberedNone(cs[1..], e, k);
    }
  }

  /** A two-chunk image whose first chunk was delivered twice. */
  const FirstChunk: ChunkEntry := ChunkEntry("dev", Str("m"), Str("cam"), Str("png"), Num(0), Num(2), Str("AB"), 1)
  const FirstChunkAgain: ChunkEntry := FirstChunk.(timestamp := 2)
  const SecondChunk: ChunkEntry := ChunkEntry("dev", Str("m"), Str("cam"), Str("png"), Num(1), Num(2), Str("CD"), 3)
  const Redelivered: seq<ChunkEntry> := [FirstChunk, FirstChunkAgain, SecondChunk]

  lemma RedeliveredPresence()
    ensures Presence(Num(2), Redelivered) == Ok([true, true])
  {
    var none := Falses(2);
    assert none == [false, false];
    assert MarkChunks(none, []) == Ok(none);
    assert MarkChunks(none, [FirstChunk]) == Ok([true, false]) by {
      var x := [FirstChunk];
      assert x[..|x| - 1] == [];
      assert none[0 := true] == [true, false];
    }
    assert MarkChunks(none, [FirstChunk, FirstChunkAgain]) == Ok([true, false]) by {
      var x := [FirstChunk, FirstChunkAgain];
      assert x[..|x| - 1] == [FirstChunk];
      assert [true, false][0 := true] == [true, false];
    }
    var cs := Redelivered;
    assert cs[..|cs| - 1] == [FirstChunk, FirstChunkAgain];
    assert [true, false][1 := true] == [true, true];
  }

  lemma RedeliveredSorted()
    ensures SortByChunkNum(Redelivered) == Redelivered
  {
    var tail := [FirstChunkAgain, SecondChunk];
    assert SortByChunkNum([SecondChunk]) == [SecondChunk] by {
      assert [SecondChunk][1..] == [];
    }
    assert SortByChunkNum(tail) == tail by {
      assert tail[1..] == [SecondChunk];
    }
    assert Redelivered[1..] == tail;
  }

  lemma RedeliveredJoined()
    ensures ConcatPayloads(Redelivered) == Ok("ABABCD")
  {
    assert ConcatPayloads([FirstChunk]) == Ok("AB") by {
      var x := [FirstChunk];
      assert x[..|x| - 1] == [];
      assert "" + "AB" == "AB";
    }
    assert ConcatPayloads([FirstChunk, FirstChunkAgain]) == Ok("ABAB") by {
      var x := [FirstChunk, FirstChunkAgain];
      assert x[..|x| - 1] == [FirstChunk];
      assert "AB" + "AB" == "ABAB";
    }
    var s := Redelivered;
    assert s[..|s| - 1] == [FirstChunk, FirstChunkAgain];
    assert "ABAB" + "CD" == "ABABCD";
  }

  lemma RedeliveredAssembled()
    ensures AssembleByIndex(Redelivered, 2) == Ok("ABCD")
  {
    var cs := Redelivered;
    assert FirstNumbered(cs, 0) == Some(FirstChunk);
    assert FirstNumbered(cs, 1) == Some(SecondChunk) by {
      var t := [FirstChunkAgain, SecondChunk];
      assert cs[1..] == t && t[1..] == [SecondChunk];
      assert FirstNumbered([SecondChunk], 1) == Some(SecondChunk);
      assert FirstNumbered(t, 1) == Some(SecondChunk);
    }
    assert AssembleByIndex(cs, 1) == Ok("AB") by {
      assert "" + "AB" == "AB";
    }
    assert "AB" + "CD" == "ABCD";
  }

  /** As written, a redelivered chunk is joined twice: chunk 0 cached twice
      and chunk 1 once, of a two-chunk image, cover both indices, so assembly
      proceeds and repeats the first payload, where the intended image joins
      each index once. */
  lemma RedeliveredChunkJoinedTwice()
    ensures Presence(Num(2), Redelivered).Ok? && AllTrue(Presence(Num(2), Redelivered).value)
    ensures ConcatPayloads(SortByChunkNum(Redelivered)) == Ok("ABABCD")
    ensures AssembleByIndex(Redelivered, 2) == Ok("ABCD")
  {
    RedeliveredPresence();
    var v := Presence(Num(2), Redelivered).value;
    assert v == [true, true];
    assert v[0] && v[1];
    RedeliveredSorted();
    RedeliveredJoined();
    RedeliveredAssembled();
  }

  /** The outcome of handling one chunk message. */
  datatype ChunkOutcome =
    | MissingKeys
    | Discarded
    | Waiting
    | Failed
    | Assembled(payload: string, rows: seq<Row>)

  /** The six keys every chunk message must carry. */
  predicate HasChunkKeys(m: Dict) {
    VarNameKey in m && ImageTypeKey in m && ChunkKey in m && TotalChunksKey in m &&
    ImageChunkKey in m && MessageIdKey in m
  }

  /** `0 == len(imageChunk)`; `len` raises on a value that is neither text
      nor bytes. */
  function IsEmptyChunk(v: Value): Option<bool>
  {
    match v
    case Str(s) => Some(|s| == 0)
    case Bytes(t) => Some(|t| == 0)
    case _ => None
  }

  /** The cache entry for a chunk message received at `now`. */
  function EntryFor(m: Dict, deviceId: string, now: int): ChunkEntry
    requires HasChunkKeys(m)
  {
    ChunkEntry(deviceId, m[MessageIdKey], m[VarNameKey], m[ImageTypeKey], m[ChunkKey],
               m[TotalChunksKey], m[ImageChunkKey], now)
  }

  /** This class's `makeBQEnvVarRowList`: the shared row builder, always with
      the key `Env`. */
  function MakeEnvRowList(valueDict: Dict, deviceId: string, rows: seq<Row>, stamp: string): (r: Result<seq<Row>>)
    ensures (VarKey !in valueDict || ValuesKey !in valueDict) ==> r == Ok(rows)
    ensures r.Raised? <==> VarKey in valueDict && ValuesKey in valueDict && !valueDict[VarKey].Str?
    ensures r.Ok? ==> |rows| <= |r.value| <= |rows| + 1 && r.value[..|rows|] == rows
    ensures r.Ok? && |r.value| == |rows| + 1 ==>
              VarKey in valueDict && ValuesKey in valueDict && valueDict[VarKey].Str? &&
              r.value[|rows|] == Row(ComposeRowId("Env", valueDict[VarKey].s, stamp, deviceId),
                                     valueDict[ValuesKey], 0, 0)
  {
    MakeEnvVarRowList(valueDict, deviceId, rows, "Env", stamp)
  }

  /** What completion yields from the fetched chunks: the joined payload and
      the warehouse row of the image URL, or a failure. */
  function Completion(cs: seq<ChunkEntry>, varName: Value, deviceId: string, publicUrl: string,
                      stamp: string): ChunkOutcome
  {
    match ConcatPayloads(SortByChunkNum(cs))
    case Raised => Failed
    case Ok(b64) =>
      match MakeEnvRowList(UrlMessage(varName, publicUrl), deviceId, [], stamp)
      case Raised => Failed
      case Ok(rows) => Assembled(b64, rows)
  }

  /** The chunk cache and the turd ledger of the document store. */
  class ChunkCache {
    var chunks: seq<ChunkEntry>
    var turds: seq<Turd>

    constructor ()
      ensures chunks == [] && turds == []
    {
      chunks := [];
      turds := [];
    }

    /** `saveImageChunkToDatastore`: a new entity under a fresh key. */
    method SaveImageChunk(e: ChunkEntry)
      modifies this
      ensures chunks == old(chunks) + [e] && turds == old(turds)
    {
      chunks := chunks + [e];
    }

    /** `getImageChunksFromDatastore`. */
    function GetImageChunks(deviceId: string, messageId: Value): seq<ChunkEntry>
      reads this
    {
      ChunksOf(chunks, deviceId, messageId)
    }

    /** `deleteImageChunksFromDatastore`. */
    method DeleteImageChunks(deviceId: string, messageId: Value)
      modifies this
      ensures chunks == RemoveChunks(old(chunks), deviceId, {messageId}) && turds == old(turds)
    {
      chunks := RemoveChunks(chunks, deviceId, {messageId});
    }

    /** `saveTurd`. */
    method SaveTurd(deviceId: string, messageId: Value, now: int)
      modifies this
      ensures turds == old(turds) + [Turd(deviceId, messageId, now)] && chunks == old(chunks)
    {
      turds := turds + [Turd(deviceId, messageId, now)];
    }

    /** `getTurds`. */
    function GetTurds(deviceId: string): seq<Turd>
      reads this
    {
      TurdsOf(turds, deviceId)
    }

    /** `deleteTurd`. */
    method DeleteTurd(deviceId: string, messageId: Value)
      modifies this
      ensures turds == RemoveTurds(old(turds), deviceId, {messageId}) && chunks == old(chunks)
    {
      turds := RemoveTurds(turds, deviceId, {messageId});
    }

    /** The purge loop of `save_old_chunked_image`: the chunks and the turd
        of every abandoned image of `deviceId` other than `messageId` are
        deleted. */
    method PurgeStale(deviceId: string, messageId: Value)
      modifies this
      ensures var stale := StaleIds(TurdsOf(old(turds), deviceId), messageId);
              chunks == RemoveChunks(old(chunks), deviceId, stale) &&
              turds == RemoveTurds(old(turds), deviceId, stale)
    {
      var badImages := GetTurds(deviceId);
      ghost var chunks0 := chunks;
      ghost var turds0 := turds;
      RemoveNoChunks(chunks0, deviceId);
      RemoveNoTurds(turds0, deviceId);
      assert StaleIds(badImages[..0], messageId) == {};
      ghost var stale: set<Value> := {};
      var i := 0;
      while i < |badImages|
        invariant 0 <= i <= |badImages|
        invariant Purged(chunks0, turds0, deviceId, badImages[..i], messageId, stale, chunks, turds)
      {
        var badMessageId := badImages[i].messageId;
        ghost var chunks1, turds1 := chunks, turds;
        PurgeStep(chunks0, turds0, deviceId, badImages, i, messageId, stale, chunks1, turds1);
        if badMessageId != messageId {
          DeleteImageChunks(deviceId, badMessageId);
          DeleteTurd(deviceId, badMessageId);
          assert chunks == RemoveChunks(chunks1, deviceId, {badMessageId});
          assert turds == RemoveTurds(turds1, deviceId, {badMessageId});
          stale := stale + {badMessageId};
        }
        i := i + 1;
      }
      assert badImages[..i] == badImages;
    }

    /** `save_old_chunked_image(pydict, deviceId)`, received at `now`; an
        exception, which the source logs and swallows, is the outcome
        `Failed` with the store as it was when it was raised. */
    method SaveOldChunkedImage(m: Dict, deviceId: string, now: int, publicUrl: string, stamp: string)
      returns (outcome: ChunkOutcome)
      modifies this
      ensures !HasChunkKeys(m) ==> outcome == MissingKeys && chunks == old(chunks) && turds == old(turds)
      ensures HasChunkKeys(m) && IsEmptyChunk(m[ImageChunkKey]).None? ==>
                outcome == Failed && chunks == old(chunks) && turds == old(turds)
      ensures HasChunkKeys(m) && IsEmptyChunk(m[ImageChunkKey]) == Some(true) ==>
                outcome == Discarded &&
                chunks == RemoveChunks(old(chunks), deviceId, {m[MessageIdKey]}) &&
                turds == old(turds) + [Turd(deviceId, m[MessageIdKey], now)]
      ensures HasChunkKeys(m) && IsEmptyChunk(m[ImageChunkKey]) == Some(false) ==>
                var mid := m[MessageIdKey];
                var stale := StaleIds(TurdsOf(old(turds), deviceId), mid);
                var saved := RemoveChunks(old(chunks), deviceId, stale) + [EntryFor(m, deviceId, now)];
                var kept := RemoveTurds(old(turds), deviceId, stale);
                var cs := ChunksOf(saved, deviceId, mid);
                var presence := Presence(m[TotalChunksKey], cs);
                (presence.Raised? ==> outcome == Failed && chunks == saved && turds == kept) &&
                (presence.Ok? && !AllTrue(presence.value) ==>
                   outcome == Waiting && chunks == saved && turds == kept) &&
                (presence.Ok? && AllTrue(presence.value) ==>
                   chunks == RemoveChunks(saved, deviceId, {mid}) &&
                   turds == RemoveTurds(kept, deviceId, {mid}) &&
                   outcome == Completion(cs, m[VarNameKey], deviceId, publicUrl, stamp))
    {
      if !(HasChunkKeys(m)) {
        return MissingKeys;
      }
      var messageId := m[MessageIdKey];
      var varName := m[VarNameKey];
      var totalChunks := m[TotalChunksKey];
      var empty := IsEmptyChunk(m[ImageChunkKey]);
      if empty.None? {
        return Failed;
      }
      if empty.value {
        DeleteImageChunks(deviceId, messageId);
        SaveTurd(deviceId, messageId, now);
        return Discarded;
      }
      PurgeStale(deviceId, messageId);
      SaveImageChunk(EntryFor(m, deviceId, now));
      if !totalChunks.Num? {
        return Failed;
      }
      var oldChunks := GetImageChunks(deviceId, messageId);
      var received := MarkReceived(totalChunks.n, oldChunks);
      if received.Raised? {
        return Failed;
      }
      var haveAllChunks := HaveAllChunks(received.value);
      if !haveAllChunks {
        return Waiting;
      }
      DeleteImageChunks(deviceId, messageId);
      DeleteTurd(deviceId, messageId);
      var b64str := JoinPayloads(SortByChunkNum(oldChunks));
      if b64str.Raised? {
        return Failed;
      }
      var rows := MakeEnvRowList(UrlMessage(varName, publicUrl), deviceId, [], stamp);
      if rows.Raised? {
        return Failed;
      }
      return Assembled(b64str.value, rows.value);
    }
  }

  /** The presence loops of `save_old_chunked_image`: `totalChunks` falses,
      then each fetched chunk's index set. */
  method MarkReceived(totalChunks: int, oldChunks: seq<ChunkEntry>) returns (r: Result<seq<bool>>)
    ensures r == MarkChunks(Falses(totalChunks), oldChunks)
  {
    var received: seq<bool> := [];
    var c := 0;
    while c < totalChunks
      invariant 0 <= c && (c <= totalChunks || c == 0)
      invariant received == Falses(c)
    {
      received := received + [false];
      c := c + 1;
    }
    assert received == Falses(totalChunks);
    var j := 0;
    while j < |oldChunks|
      invariant 0 <= j <= |oldChunks|
      invariant MarkChunks(Falses(totalChunks), oldChunks[..j]) == Ok(received)
    {
      assert oldChunks[..j + 1][..j] == oldChunks[..j];
      var k := PyIndex(oldChunks[j].chunkNum, |received|);
      if k.None? {
        assert MarkChunks(Falses(totalChunks), oldChunks[..j + 1]) == Raised;
        MarkChunksPrefixRaised(Falses(totalChunks), oldChunks, j + 1);
        return Raised;
      }
      received := received[k.value := true];
      j := j + 1;
    }
    assert oldChunks[..j] == oldChunks;
    return Ok(received);
  }

  /** The `haveAllChunks` loop. */
  method HaveAllChunks(received: seq<bool>) returns (b: bool)
    ensures b <==> AllTrue(received)
  {
    b := true;
    var h := 0;
    while h < |received|
      invariant 0 <= h <= |received|
      invariant b <==> forall k :: 0 <= k < h ==> received[k]
    {
      if !received[h] {
        b := false;
      }
      h := h + 1;
    }
  }

  /** The loop `b64str += oc['imageChunk']` over the sorted chunks. */
  method JoinPayloads(sorted: seq<ChunkEntry>) returns (r: Result<string>)
    ensures r == ConcatPayloads(sorted)
  {
    var b64str := "";
    var p := 0;
    while p < |sorted|
      invariant 0 <= p <= |sorted|
      invariant ConcatPayloads(sorted[..p]) == Ok(b64str)
    {
      assert sorted[..p + 1][..p] == sorted[..p];
      if !sorted[p].imageChunk.Str? {
        assert ConcatPayloads(sorted[..p + 1]) == Raised;
        ConcatPrefixRaised(sorted, p + 1);
        return Raised;
      }
      b64str := b64str + sorted[p].imageChunk.s;
      p := p + 1;
    }
    assert sorted[..p] == sorted;
    return Ok(b64str);
  }

  /** Once a prefix raises, the whole marking raises. */
  lemma {:induction false} MarkChunksPrefixRaised(v: seq<bool>, cs: seq<ChunkEntry>, j: nat)
    requires j <= |cs| && MarkChunks(v, cs[..j]).Raised?
    ensures MarkChunks(v, cs).Raised?
    decreases |cs| - j
  {
    if j == |cs| {
      assert cs[..j] == cs;
    } else {
      assert cs[..j + 1][..j] == cs[..j];
      MarkChunksPrefixRaised(v, cs, j + 1);
    }
  }

  /** Once a prefix raises, the whole join raises. */
  lemma {:induction false} ConcatPrefixRaised(cs: seq<ChunkEntry>, j: nat)
    requires j <= |cs| && ConcatPayloads(cs[..j]).Raised?
    ensures ConcatPayloads(cs).Raised?
    decreases |cs| - j
  {
    if j == |cs| {
      assert cs[..j] == cs;
    } else {
      assert cs[..j + 1][..j] == cs[..j];
      ConcatPrefixRaised(cs, j + 1);
    }
  }
}
