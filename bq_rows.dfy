/** Rows of the analytical warehouse's `vals` table, as built by
    `makeBQEnvVarRowList` (the dispatcher's and the legacy chunk handler's
    copies). The row id packs four fields separated by `~`:
    `<key>~<variable>~<created UTC timestamp>~<device id>`. */
module BigQueryRows {
  import opened Common
  import opened PyStr

  const VarKey: string := "var"
  const ValuesKey: string := "values"

  /** A `vals` row: the id, the raw `values` payload, and zero for X and Y. */
  datatype Row = Row(id: string, values: Value, x: int, y: int)

  /** The row id: tildes are removed from the variable name and the device id
      first, so that `~` only ever separates fields. */
  function ComposeRowId(idKey: string, varName: string, stamp: string, deviceId: string): string {
    idKey + "~" + Strip(varName, '~') + "~" + stamp + "~" + Strip(deviceId, '~')
  }

  /** For a `~`-free key and timestamp the id has exactly three separators,
      and its `~`-fields are the key, the cleaned variable, the timestamp and
      the cleaned device id. */
  lemma ComposeRowIdFields(idKey: string, varName: string, stamp: string, deviceId: string)
    requires '~' !in idKey && '~' !in stamp
    ensures Split(ComposeRowId(idKey, varName, stamp, deviceId), '~')
         == [idKey, Strip(varName, '~'), stamp, Strip(deviceId, '~')]
    ensures CountOf(ComposeRowId(idKey, varName, stamp, deviceId), '~') == 3
  {
    var v, d := Strip(varName, '~'), Strip(deviceId, '~');
    StripSpec(varName, '~');
    StripSpec(deviceId, '~');
    var id := ComposeRowId(idKey, varName, stamp, deviceId);
    assert id == idKey + ['~'] + (v + ['~'] + (stamp + ['~'] + d));
    SplitFirst(idKey, '~', v + ['~'] + (stamp + ['~'] + d));
    SplitFirst(v, '~', stamp + ['~'] + d);
    SplitFirst(stamp, '~', d);
    SplitNoSep(d, '~');
    SplitCount(id, '~');
  }

  /** `makeBQEnvVarRowList(valueDict, deviceId, rowsList, idKey)`, with the
      caller's list passed in and the extended list returned. `stamp` is the
      current UTC time already formatted as `%FT%XZ`. A missing `var` or
      `values` key leaves the list as it was; a `var` that is not a string makes
      `str.replace` raise. */
  function MakeEnvVarRowList(valueDict: Dict, deviceId: string, rows: seq<Row>,
                             idKey: string, stamp: string): (r: Result<seq<Row>>)
    ensures (VarKey !in valueDict || ValuesKey !in valueDict) ==> r == Ok(rows)
    ensures r.Raised? <==> VarKey in valueDict && ValuesKey in valueDict && !valueDict[VarKey].Str?
    ensures r.Ok? ==> |rows| <= |r.value| <= |rows| + 1 && r.value[..|rows|] == rows
    ensures r.Ok? && |r.value| == |rows| + 1 ==>
              r.value[|rows|] == Row(ComposeRowId(idKey, valueDict[VarKey].s, stamp, deviceId),
                                     valueDict[ValuesKey], 0, 0)
    ensures r.Ok? && |r.value| == |rows| + 1 <==>
              VarKey in valueDict && ValuesKey in valueDict && valueDict[VarKey].Str?
  {
    if VarKey !in valueDict || ValuesKey !in valueDict then Ok(rows)
    else match valueDict[VarKey]
      case Str(varName) =>
        Ok(rows + [Row(ComposeRowId(idKey, varName, stamp, deviceId), valueDict[ValuesKey], 0, 0)])
      case _ => Raised
  }

  /** The caller's `rowsList`, which `makeBQEnvVarRowList` extends in place. */
  class RowList {
    var rows: seq<Row>

    constructor ()
      ensures rows == []
    {
      rows := [];
    }
  }

  /** `makeBQEnvVarRowList` on the caller's list. `raised` reports the
      exception of a `var` that is not a string, before anything is
      appended. */
  method AppendEnvVarRow(list: RowList, valueDict: Dict, deviceId: string, idKey: string, stamp: string)
    returns (raised: bool)
    modifies list
    ensures raised <==> MakeEnvVarRowList(valueDict, deviceId, old(list.rows), idKey, stamp).Raised?
    ensures raised ==> list.rows == old(list.rows)
    ensures !raised ==> list.rows == MakeEnvVarRowList(valueDict, deviceId, old(list.rows), idKey, stamp).value
  {
    if VarKey !in valueDict || ValuesKey !in valueDict {
      return false;
    }
    var varName := valueDict[VarKey];
    var values := valueDict[ValuesKey];
    if !varName.Str? {
      return true;
    }
    var id := ComposeRowId(idKey, varName.s, stamp, deviceId);
    list.rows := list.rows + [Row(id, values, 0, 0)];
    return false;
  }

  const MessageTypeKey: string := "messageType"
  const ImageTypeName: string := "Image"

  /** The text before and after the URL in the synthesised `values`:
      `{'values':[` and `{'name':'URL', 'type':'str', 'value':'` before,
      `'}` and `]}` after. The prefix is written in the pieces the payload
      scanners look for (the name tag, the name, its closing quote and the
      value tag). */
  const UrlPrefix: string := "{'values':[{" + "'name':'" + "URL" + "'" + ", 'type':'str', " + "'value':'"
  const UrlSuffix: string := "'}]}"

  /** The `values` text of the message synthesised for a stored image's URL. */
  function UrlValuesJson(url: string): string {
    UrlPrefix + url + UrlSuffix
  }

  /** The message synthesised once an image is stored at `url`: typed `Image`,
      so that it is written to the warehouse like a telemetry value. */
  function UrlMessage(varName: Value, url: string): (m: Dict)
    ensures m.Keys == {MessageTypeKey, VarKey, ValuesKey}
    ensures m[MessageTypeKey] == Str(ImageTypeName) && m[VarKey] == varName
    ensures m[ValuesKey] == Str(UrlValuesJson(url))
  {
    map[MessageTypeKey := Str(ImageTypeName), VarKey := varName, ValuesKey := Str(UrlValuesJson(url))]
  }
}
