/** The warehouse query templates of cc/google/queries/queries.py: every
    template names the device by the placeholder `PlaceHolderForDeviceUUID`,
    which `formatQuery` replaces, and selects fields of a `vals` row id with
    `REGEXP_EXTRACT(id, r'(?:[^\~]*\~){n}([^~]*)')`. */
module Queries {
  import opened Common
  import opened PyStr
  import opened BigQueryRows

  const Placeholder: string := "PlaceHolderForDeviceUUID"

  /** Field positions of a row id, counted from zero. */
  const KeyField: nat := 0
  const VarField: nat := 1
  const TimestampField: nat := 2
  const DeviceField: nat := 3

  /** `formatQuery(query, device_id)`. */
  function FormatQuery(query: string, deviceId: string): string {
    Replace(query, Placeholder, deviceId)
  }

  /** A template that never names the device is sent as it is. */
  lemma FormatQueryWithoutPlaceholder(query: string, deviceId: string)
    requires !Contains(query, Placeholder)
    ensures FormatQuery(query, deviceId) == query
  {
    ReplaceWithoutOccurrence(query, Placeholder, deviceId);
  }

  /** The first placeholder of a template is replaced by the device id and
      the text before it is kept. */
  lemma FormatQueryReplacesFirst(before: string, after: string, deviceId: string)
    requires forall i: nat :: i < |before| ==> !OccursAt(before + Placeholder + after, Placeholder, i)
    ensures FormatQuery(before + Placeholder + after, deviceId)
         == before + deviceId + FormatQuery(after, deviceId)
  {
    ReplaceLeftmost(before, Placeholder, deviceId, after);
  }

  /** A non-empty device id that shares no character with the placeholder
      leaves no placeholder in the formatted query. */
  lemma FormatQueryLeavesNoPlaceholder(query: string, deviceId: string)
    requires |deviceId| > 0
    requires forall i :: 0 <= i < |deviceId| ==> deviceId[i] !in Placeholder
    ensures !Contains(FormatQuery(query, deviceId), Placeholder)
  {
    ReplaceLeavesNoOccurrence(query, Placeholder, deviceId);
  }

  /** Without such a condition the replacement can rebuild a placeholder from
      the text around it: a device id that is the placeholder itself, or one
      that completes the text following the placeholder into a new one. */
  lemma FormatQueryCanRebuildPlaceholder()
    ensures Contains(FormatQuery(Placeholder, Placeholder), Placeholder)
    ensures Contains(FormatQuery(Placeholder + "ForDeviceUUID", "PlaceHolder"), Placeholder)
  {
    assert Placeholder + "" == Placeholder;
    ReplaceRebuilds(Placeholder, Placeholder, "");
    assert Placeholder == "PlaceHolder" + "ForDeviceUUID";
    ReplaceRebuilds(Placeholder, "PlaceHolder", "ForDeviceUUID");
    SelfOccurs(Placeholder);
  }

  /** Replacing `pat` in `pat + y` by a non-empty `x` with `x + y == pat`
      gives `pat` back. */
  lemma ReplaceRebuilds(pat: string, x: string, y: string)
    requires |x| > 0 && pat == x + y
    ensures Replace(pat + y, pat, x) == pat
  {
    ReplaceLeftmost("", pat, x, y);
    assert "" + pat + y == pat + y;
    assert Replace(y, pat, x) == y;
    assert "" + x + y == pat;
  }

  /** Every string occurs in itself. */
  lemma SelfOccurs(s: string)
    ensures Contains(s, s)
  {
    assert OccursAt(s, s, 0);
  }

  /** `(?:[^\~]*\~)` at the start of `s`: the text after the first `~`,
      or no match when `s` holds no `~`. */
  function DropField(s: string): (r: Option<string>)
    ensures r.None? <==> '~' !in s
    ensures r.Some? ==> CountOf(r.value, '~') + 1 == CountOf(s, '~')
    ensures r.Some? ==> |r.value| < |s|
  {
    if |s| == 0 then None
    else if s[0] == '~' then Some(s[1..])
    else DropField(s[1..])
  }

  /** `([^~]*)` at the start of `s`: the longest `~`-free prefix. */
  function TakeField(s: string): (r: string)
    ensures '~' !in r
    ensures |r| <= |s| && r == s[..|r|]
    ensures |r| < |s| ==> s[|r|] == '~'
  {
    if |s| == 0 || s[0] == '~' then ""
    else [s[0]] + TakeField(s[1..])
  }

  /** `REGEXP_EXTRACT(s, r'(?:[^\~]*\~){n}([^~]*)')`: the match starts at the
      first position, since any later start sees fewer separators; it skips
      `n` fields and captures the next one, and is NULL when `s` has fewer than
      `n` separators. */
  function ExtractField(s: string, n: nat): (r: Option<string>)
    ensures r.Some? <==> n <= CountOf(s, '~')
    ensures r.Some? ==> '~' !in r.value
    decreases n
  {
    if n == 0 then Some(TakeField(s))
    else match DropField(s)
      case None => None
      case Some(rest) => ExtractField(rest, n - 1)
  }

  /** Splitting peels off the first field exactly as the pattern does. */
  lemma {:induction false} SplitAsFields(s: string)
    ensures Split(s, '~') == [TakeField(s)] +
              (if DropField(s).Some? then Split(DropField(s).value, '~') else [])
  {
    if |s| > 0 && s[0] != '~' {
      SplitAsFields(s[1..]);
    }
  }

  /** The pattern with count `n` selects exactly Python's `s.split('~')[n]`. */
  lemma {:induction false} ExtractFieldIsSplitField(s: string, n: nat)
    ensures n < |Split(s, '~')| ==> ExtractField(s, n) == Some(Split(s, '~')[n])
    ensures n >= |Split(s, '~')| ==> ExtractField(s, n) == None
    decreases n
  {
    SplitAsFields(s);
    if n == 0 {
    } else if DropField(s).None? {
      assert ExtractField(s, n) == None;
    } else {
      var rest := DropField(s).value;
      ExtractFieldIsSplitField(rest, n - 1);
      FieldIndexStep(Split(s, '~'), TakeField(s), Split(rest, '~'), n, ExtractField(s, n), ExtractField(rest, n - 1));
    }
  }

  /** Field `n` of a split with a head field is field `n - 1` of its tail. */
  lemma FieldIndexStep(parts: seq<string>, head: string, tail: seq<string>, n: nat,
                       x: Option<string>, y: Option<string>)
    requires parts == [head] + tail && n > 0 && x == y
    requires n - 1 < |tail| ==> y == Some(tail[n - 1])
    requires n - 1 >= |tail| ==> y == None
    ensures n < |parts| ==> x == Some(parts[n])
    ensures n >= |parts| ==> x == None
  {
    if n < |parts| {
      assert parts[n] == tail[n - 1];
    }
  }

  /** The queries read back what `makeBQEnvVarRowList` wrote: for a key and a
      timestamp free of `~`, the field patterns 0 to 3 of a row id give the
      key, the cleaned variable name, the timestamp and the cleaned device id,
      and there is no fifth field. */
  lemma RowIdRoundTrip(idKey: string, varName: string, stamp: string, deviceId: string)
    requires '~' !in idKey && '~' !in stamp
    ensures ExtractField(ComposeRowId(idKey, varName, stamp, deviceId), KeyField) == Some(idKey)
    ensures ExtractField(ComposeRowId(idKey, varName, stamp, deviceId), VarField) == Some(Strip(varName, '~'))
    ensures ExtractField(ComposeRowId(idKey, varName, stamp, deviceId), TimestampField) == Some(stamp)
    ensures ExtractField(ComposeRowId(idKey, varName, stamp, deviceId), DeviceField) == Some(Strip(deviceId, '~'))
    ensures ExtractField(ComposeRowId(idKey, varName, stamp, deviceId), DeviceField + 1) == None
  {
    var id := ComposeRowId(idKey, varName, stamp, deviceId);
    ComposeRowIdFields(idKey, varName, stamp, deviceId);
    ExtractFieldIsSplitField(id, 0);
    ExtractFieldIsSplitField(id, 1);
    ExtractFieldIsSplitField(id, 2);
    ExtractFieldIsSplitField(id, 3);
    ExtractFieldIsSplitField(id, 4);
  }
}
