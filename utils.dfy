/** The helpers of cc/utils.py. The clock and the random source are inputs. */
module Utils {
  import opened Common

  /** `key_in_dict(d, key)`. */
  predicate KeyInDict(d: Dict, key: string) {
    key in d
  }

  /** How `key_in_dict` relates to `dict.get`, which the source uses side by
      side: a present key reads back its value, an absent one reads `None`. */
  lemma KeyInDictSpec(d: Dict, key: string)
    ensures KeyInDict(d, key) ==> DictGet(d, key) == d[key]
    ensures !KeyInDict(d, key) ==> DictGet(d, key) == Null
  {
  }

  /** `is_expired(expiration)` with the current instant passed in: `now` and
      `expiration` are instants on the same scale (seconds). */
  predicate IsExpired(expiration: int, now: int) {
    now > expiration
  }

  /** Once expired, a thing stays expired as the clock moves on. */
  lemma IsExpiredMonotone(expiration: int, now: int, later: int)
    requires IsExpired(expiration, now) && now <= later
    ensures IsExpired(expiration, later)
  {
  }

  const Digits: string := "0123456789"

  /** `id_generator(size, chars)`. `draw(i)` is the random source's i-th pick,
      reduced modulo `|chars|`; `random.choice` raises on an empty alphabet. */
  function IdGenerator(size: nat, chars: string, draw: nat -> nat): (r: Result<string>)
    ensures r.Raised? <==> size > 0 && |chars| == 0
    ensures r.Ok? ==> |r.value| == size
    ensures r.Ok? ==> forall i :: 0 <= i < |r.value| ==> r.value[i] in chars
  {
    if size == 0 then Ok("")
    else if |chars| == 0 then Raised
    else Ok(seq(size, i requires 0 <= i < size => chars[draw(i) % |chars|]))
  }

  /** With the defaults (`size=6`, `chars=string.digits`) the identifier is six
      decimal digits. */
  lemma DefaultIdIsSixDigits(draw: nat -> nat)
    ensures IdGenerator(6, Digits, draw).Ok?
    ensures |IdGenerator(6, Digits, draw).value| == 6
    ensures forall i :: 0 <= i < 6 ==> '0' <= IdGenerator(6, Digits, draw).value[i] <= '9'
  {
    var r := IdGenerator(6, Digits, draw).value;
    forall i | 0 <= i < 6 ensures '0' <= r[i] <= '9' {
      assert r[i] in Digits;
    }
  }

  /** `bytes_to_string(bs)`: a `bytes` object is decoded, anything else is
      returned as it is. The same rule is `_bytes_to_string` and
      `decode_byte_string` in cc/google/datastore.py. */
  function BytesToString(v: Value): (r: Value)
    ensures !r.Bytes?
    ensures !v.Bytes? ==> r == v
    ensures v.Bytes? ==> r.Str? && r.s == v.text
  {
    match v
    case Bytes(t) => Str(t)
    case _ => v
  }

  lemma BytesToStringIdempotent(v: Value)
    ensures BytesToString(BytesToString(v)) == BytesToString(v)
  {
  }
}
