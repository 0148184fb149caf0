/** The message dispatcher of cc/mqtt/mqtt_messaging.py: every message a
    device publishes is validated, typed, and then handed to the legacy chunk
    handler, announced as an uploaded image, republished as a recipe
    notification, or stored as telemetry (on the device entity and as a
    warehouse row).

    `ast.literal_eval` is a library evaluator and enters as two injected
    partial functions: `parseFirst(s)` is the first element of the `values`
    list of the literal `s` (`None` when any step of that raises) and
    `literal(s)` is the value of the literal `s` (`None` when it raises). The
    clock enters as `now` (seconds) and `stamp` (already formatted). */
module MqttMessaging {
  import opened Common
  import opened PyStr
  import opened BigQueryRows
  import opened DeviceStore
  import ImageChunking
  import NotificationMessaging

  /** The five recognised message types. */
  datatype MessageType = EnvVar | CommandReply | Image | ImageUpload | RecipeEvent

  function TypeName(t: MessageType): string {
    match t
    case EnvVar => "EnvVar"
    case CommandReply => "CommandReply"
    case Image => ImageTypeName
    case ImageUpload => "ImageUpload"
    case RecipeEvent => "RecipeEvent"
  }

  const VarNameKey: string := "varName"
  const ImageTypeKey: string := "imageType"
  const FileNameKey: string := "fileName"
  const RecipeActionKey: string := "action"
  const RecipeNameKey: string := "name"

  /** `get_message_type(message)`. */
  function GetMessageType(m: Dict): (r: Option<MessageType>)
    ensures r.Some? ==> MessageTypeKey in m && m[MessageTypeKey] == Str(TypeName(r.value))
    ensures r.None? <==> MessageTypeKey !in m || forall t :: m[MessageTypeKey] != Str(TypeName(t))
  {
    if MessageTypeKey !in m then None
    else if Str(TypeName(EnvVar)) == DictGet(m, MessageTypeKey) then Some(EnvVar)
    else if Str(TypeName(CommandReply)) == DictGet(m, MessageTypeKey) then Some(CommandReply)
    else if Str(TypeName(Image)) == DictGet(m, MessageTypeKey) then Some(Image)
    else if Str(TypeName(ImageUpload)) == DictGet(m, MessageTypeKey) then Some(ImageUpload)
    else if Str(TypeName(RecipeEvent)) == DictGet(m, MessageTypeKey) then Some(RecipeEvent)
    else None
  }

  /** A message carrying a type's name is read back as that type: the names
      are distinct. */
  lemma GetMessageTypeRoundTrip(t: MessageType, m: Dict)
    requires MessageTypeKey in m && m[MessageTypeKey] == Str(TypeName(t))
    ensures GetMessageType(m) == Some(t)
  {
  }

  /** `validate_message(message)`: a recognised type, and for each type at
      least one of its keys. */
  function ValidateMessage(m: Dict): (ok: bool)
    ensures ok ==> GetMessageType(m).Some?
    ensures GetMessageType(m).None? ==> !ok
    ensures GetMessageType(m) in {Some(EnvVar), Some(CommandReply)} ==>
              (ok <==> VarKey in m || ValuesKey in m)
    ensures GetMessageType(m) in {Some(Image), Some(ImageUpload)} ==>
              (ok <==> VarNameKey in m || ImageTypeKey in m || FileNameKey in m)
    ensures GetMessageType(m) == Some(RecipeEvent) ==>
              (ok <==> RecipeActionKey in m || RecipeNameKey in m)
  {
    if MessageTypeKey !in m then false
    else
      var t := GetMessageType(m);
      if !(t == Some(EnvVar) || t == Some(CommandReply) || t == Some(Image) ||
           t == Some(ImageUpload) || t == Some(RecipeEvent)) then false
      else if (t == Some(EnvVar) || t == Some(CommandReply)) && !(VarKey in m || ValuesKey in m) then false
      else if (t == Some(Image) || t == Some(ImageUpload)) &&
              !(VarNameKey in m || ImageTypeKey in m || FileNameKey in m) then false
      else if t == Some(RecipeEvent) && !(RecipeActionKey in m || RecipeNameKey in m) then false
      else true
  }

  /** The recipe event a device's `action` names. */
  function RecipeAction(action: Value): (r: Option<NotificationMessaging.RecipeEvent>)
    ensures r == Some(NotificationMessaging.RecipeStart) <==> action == Str("start")
    ensures r == Some(NotificationMessaging.RecipeStop) <==> action == Str("stop")
    ensures r == Some(NotificationMessaging.RecipeEnd) <==> action == Str("end")
  {
    if action == Str("start") then Some(NotificationMessaging.RecipeStart)
    else if action == Str("stop") then Some(NotificationMessaging.RecipeStop)
    else if action == Str("end") then Some(NotificationMessaging.RecipeEnd)
    else None
  }

  /** The notification the `RecipeEvent` branch of `parse` publishes for a
      device's message, or `None` when nothing is published. */
  function RecipeEventMessage(deviceId: string, m: Dict): (r: Option<Dict>)
    ensures r.Some? <==> RecipeAction(DictGet(m, RecipeActionKey)).Some? && |deviceId| > 0
    ensures r.Some? ==>
              r.value == NotificationMessaging.PublishMessage(deviceId,
                NotificationMessaging.EventName(RecipeAction(DictGet(m, RecipeActionKey)).value),
                DictGet(m, RecipeNameKey)).value
  {
    match RecipeAction(DictGet(m, RecipeActionKey))
    case None => None
    case Some(e) =>
      NotificationMessaging.PublishMessage(deviceId, NotificationMessaging.EventName(e), DictGet(m, RecipeNameKey))
  }

  /** A device's recipe event reaches the notifications side as the matching
      event, for the same device and with the recipe name as its payload: the
      notification handler accepts it and reads back `start`, `stop` or `end`
      as `recipe_start`, `recipe_stop` or `recipe_end`. */
  lemma RecipeEventReachesNotifications(deviceId: string, m: Dict)
    requires RecipeEventMessage(deviceId, m).Some?
    ensures var n := RecipeEventMessage(deviceId, m).value;
            NotificationMessaging.ValidateMessage(n) &&
            NotificationMessaging.EventOf(n[NotificationMessaging.MessageTypeKey])
              == RecipeAction(DictGet(m, RecipeActionKey)) &&
            n[NotificationMessaging.DeviceIdKey] == Str(deviceId) &&
            n[NotificationMessaging.MessageKey] == DictGet(m, RecipeNameKey)
  {
    var e := RecipeAction(DictGet(m, RecipeActionKey)).value;
    NotificationMessaging.PublishedMessagesValidate(deviceId, e, DictGet(m, RecipeNameKey));
  }

  /** The row key `makeBQRowList` writes a message type under, or `None`
      when it writes nothing. */
  function RowKeyFor(t: Option<MessageType>): (k: Option<string>)
    ensures k == Some("Env") <==> t == Some(EnvVar) || t == Some(Image)
    ensures k == Some("Cmd") <==> t == Some(CommandReply)
    ensures k.None? <==> t.None? || t == Some(ImageUpload) || t == Some(RecipeEvent)
  {
    match t
    case Some(EnvVar) => Some("Env")
    case Some(Image) => Some("Env")
    case Some(CommandReply) => Some("Cmd")
    case _ => None
  }

  /** `makeBQRowList(valueDict, deviceId, rowsList)`: `insert` is its return
      value; `raised` reports the exception of a non-string `var`, which
      propagates to the caller. */
  method MakeBQRowList(list: RowList, m: Dict, deviceId: string, stamp: string)
    returns (insert: bool, raised: bool)
    modifies list
    ensures RowKeyFor(GetMessageType(m)).None? ==> !insert && !raised && list.rows == old(list.rows)
    ensures RowKeyFor(GetMessageType(m)).Some? ==>
              var r := MakeEnvVarRowList(m, deviceId, old(list.rows), RowKeyFor(GetMessageType(m)).value, stamp);
              (raised <==> r.Raised?) && (raised ==> list.rows == old(list.rows)) &&
              (!raised ==> insert && list.rows == r.value)
  {
    var messageType := GetMessageType(m);
    if messageType.None? {
      return false, false;
    }
    if messageType == Some(EnvVar) || messageType == Some(Image) {
      raised := AppendEnvVarRow(list, m, deviceId, "Env", stamp);
      return true, raised;
    }
    if messageType == Some(CommandReply) {
      raised := AppendEnvVarRow(list, m, deviceId, "Cmd", stamp);
      return true, raised;
    }
    return false, false;
  }

  /** The message synthesised for a stored image is typed `Image`, so it is
      written under `Env`, as one row carrying the URL payload; both copies of
      the row builder agree on it. */
  lemma UrlMessageWrittenAsEnv(varName: string, url: string, deviceId: string, stamp: string, rows: seq<Row>)
    ensures GetMessageType(UrlMessage(Str(varName), url)) == Some(Image)
    ensures RowKeyFor(GetMessageType(UrlMessage(Str(varName), url))) == Some("Env")
    ensures MakeEnvVarRowList(UrlMessage(Str(varName), url), deviceId, rows, "Env", stamp)
         == Ok(rows + [Row(ComposeRowId("Env", varName, stamp, deviceId), Str(UrlValuesJson(url)), 0, 0)])
    ensures ImageChunking.MakeEnvRowList(UrlMessage(Str(varName), url), deviceId, rows, stamp)
         == MakeEnvVarRowList(UrlMessage(Str(varName), url), deviceId, rows, "Env", stamp)
  {
    var m := UrlMessage(Str(varName), url);
    assert m[MessageTypeKey] == Str(TypeName(Image));
  }

  const NameTag: string := "'name':'"
  const Quote: string := "'"
  const ValueTag: string := "'value':'"
  const EndTag: string := "}]}"

  /** The fallback of `__string_to_name`: the text between the first
      `'name':'` and the next `'`, or `None` if either is missing. */
  function ScanName(s: string): (r: Option<string>)
    ensures Find(s, NameTag, 0) == -1 ==> r.None?
    ensures r.Some? ==> '\'' !in r.value
    ensures r.Some? ==>
              var i := Find(s, NameTag, 0) + |NameTag|;
              0 <= i && i + |r.value| < |s| && s[i..i + |r.value|] == r.value && s[i + |r.value|] == '\''
    ensures Find(s, NameTag, 0) != -1 ==>
              (r.None? <==> '\'' !in s[Find(s, NameTag, 0) + |NameTag|..])
  {
    var nameStart := Find(s, NameTag, 0);
    if nameStart == -1 then None
    else
      var start := nameStart + |NameTag|;
      var nameEnd := Find(s, Quote, start);
      if nameEnd == -1 then
        NoQuoteBetween(s, start, |s|);
        None
      else
        NoQuoteBetween(s, start, nameEnd);
        assert s[nameEnd] == s[nameEnd..nameEnd + 1][0] == '\'';
        Some(s[start..nameEnd])
  }

  /** Where no quote starts, no character is a quote. */
  lemma NoQuoteBetween(s: string, start: nat, end: nat)
    requires end <= |s| && forall i: nat :: start <= i < end ==> !OccursAt(s, Quote, i)
    ensures forall k :: start <= k < end ==> s[k] != '\''
  {
    forall k | start <= k < end ensures s[k] != '\'' {
      assert !OccursAt(s, Quote, k);
      assert s[k..k + 1] == [s[k]];
    }
  }

  /** The name scanner inverts the layout it scans: the first `'name':'`,
      a quote-free name, and a closing quote give back the name. */
  lemma ScanNameInverse(a: string, name: string, b: string)
    requires '\'' !in name
    requires forall i: nat :: i < |a| ==> !OccursAt(a + NameTag + name + Quote + b, NameTag, i)
    ensures ScanName(a + NameTag + name + Quote + b) == Some(name)
  {
    var s := a + NameTag + name + Quote + b;
    var start := |a| + |NameTag|;
    Layout(a, NameTag, name, Quote, b);
    assert OccursAt(s, NameTag, |a|);
    FindFirst(s, NameTag, 0, |a|);
    assert s[start + |name|] == s[start + |name|..start + |name| + 1][0] == '\'';
    QuoteAfterName(s, start, name);
    ScanNameAt(s, |a|, name);
  }

  /** Where each part of `a + tag + v + q + b` sits. */
  lemma Layout(a: string, tag: string, v: string, q: string, b: string)
    ensures var s, i := a + tag + v + q + b, |a| + |tag|;
            |s| == i + |v| + |q| + |b| &&
            s[|a|..i] == tag && s[i..i + |v|] == v && s[i + |v|..i + |v| + |q|] == q
  {
  }

  /** The scanner's result once both searches are known. */
  lemma ScanNameAt(s: string, i: nat, name: string)
    requires Find(s, NameTag, 0) == i && i + |NameTag| + |name| <= |s|
    requires Find(s, Quote, i + |NameTag|) == i + |NameTag| + |name|
    requires s[i + |NameTag|..i + |NameTag| + |name|] == name
    ensures ScanName(s) == Some(name)
  {
  }

  /** The first quote after a quote-free name is the one right after it. */
  lemma QuoteAfterName(s: string, start: nat, name: string)
    requires start + |name| < |s| && s[start..start + |name|] == name
    requires s[start + |name|] == '\'' && '\'' !in name
    ensures Find(s, Quote, start) == start + |name|
  {
    forall i: nat | start <= i < start + |name| ensures !OccursAt(s, Quote, i) {
      assert s[i] == name[i - start];
      MismatchAt(s, Quote, i, 0);
    }
    assert s[start + |name|..start + |name| + 1] == Quote;
    FindFirst(s, Quote, start, start + |name|);
  }

  /** Concatenation regrouped around a five-part prefix. */
  lemma Regroup(a: string, b: string, c: string, d: string, e: string, f: string, g: string)
    ensures (a + b + c + d + e) + f + g == a + b + c + d + (e + f + g)
  {
  }

  /** The URL payload's prefix, cut at its name. */
  lemma UrlPrefixAtName()
    ensures UrlPrefix == "{'values':[{" + NameTag + "URL" + Quote + ", 'type':'str', " + ValueTag
    ensures 'n' !in "{'values':[{"
  {
  }

  /** A payload whose first `'name':'` opens the name `URL`. */
  lemma NamesUrlAfter(a: string, b: string)
    requires 'n' !in a
    ensures ScanName(a + NameTag + "URL" + Quote + b) == Some("URL")
  {
    SecondCharAbsent(a, NameTag, "URL" + Quote + b);
    assert a + NameTag + ("URL" + Quote + b) == a + NameTag + "URL" + Quote + b;
    ScanNameInverse(a, "URL", b);
  }

  /** Read back by the name scanner, the synthesised URL payload names `URL`. */
  lemma UrlPayloadNamesUrl(url: string)
    ensures ScanName(UrlValuesJson(url)) == Some("URL")
  {
    var a := "{'values':[{";
    var rest := ", 'type':'str', " + ValueTag;
    UrlPrefixAtName();
    NamesUrlAfter(a, rest + url + UrlSuffix);
    Regroup(a, NameTag, "URL", Quote, rest, url, UrlSuffix);
    Associate(a + NameTag + "URL" + Quote, ", 'type':'str', ", ValueTag);
  }

  /** The fallback of `__string_to_value`: the input unchanged when
      `'value':'` or `}]}` is missing; otherwise the literal between the end
      of the first `'value':'` and the character before the first `}]}`,
      sliced with Python's rules (so a `}]}` at index 0 slices up to the last
      character), whose evaluation may raise. */
  function ScanValue(s: string, literal: string -> Option<Value>): (r: Result<Value>)
    ensures Find(s, ValueTag, 0) == -1 || Find(s, EndTag, 0) == -1 ==> r == Ok(Str(s))
    ensures Find(s, ValueTag, 0) != -1 && Find(s, EndTag, 0) != -1 ==>
              (r.Raised? <==> literal(ValueText(s)).None?) &&
              (r.Ok? ==> r.value == literal(ValueText(s)).value)
  {
    var valueStart := Find(s, ValueTag, 0);
    var valueEnd := Find(s, EndTag, 0);
    if valueStart == -1 || valueEnd == -1 then Ok(Str(s))
    else match literal(ValueText(s))
      case None => Raised
      case Some(v) => Ok(v)
  }

  /** The text the value scanner hands to `ast.literal_eval`. */
  function ValueText(s: string): (r: string)
    requires Find(s, ValueTag, 0) != -1 && Find(s, EndTag, 0) != -1
    ensures var a, b := Find(s, ValueTag, 0) + |ValueTag|, Find(s, EndTag, 0) - 1;
            (0 <= a <= b ==> r == s[a..b]) && (0 <= b < a ==> r == "") &&
            (b == -1 && a < |s| ==> r == s[a..|s| - 1]) && (b == -1 && |s| <= a ==> r == "")
  {
    PySlice(s, Find(s, ValueTag, 0) + |ValueTag|, Find(s, EndTag, 0) - 1)
  }

  /** The value scanner inverts the layout it scans: the first `'value':'`,
      then the value, a quote and the first `}]}`, gives back the value. */
  lemma ScanValueInverse(a: string, v: string, b: string, literal: string -> Option<Value>)
    requires forall i: nat :: i < |a| ==> !OccursAt(a + ValueTag + v + "'}]}" + b, ValueTag, i)
    requires forall i: nat :: i < |a| + |ValueTag| + |v| + 1 ==> !OccursAt(a + ValueTag + v + "'}]}" + b, EndTag, i)
    ensures Find(a + ValueTag + v + "'}]}" + b, ValueTag, 0) == |a|
    ensures Find(a + ValueTag + v + "'}]}" + b, EndTag, 0) == |a| + |ValueTag| + |v| + 1
    ensures ValueText(a + ValueTag + v + "'}]}" + b) == v
    ensures ScanValue(a + ValueTag + v + "'}]}" + b, literal)
         == (if literal(v).Some? then Ok(literal(v).value) else Raised)
  {
    var s := a + ValueTag + v + "'}]}" + b;
    var start := |a| + |ValueTag|;
    assert s[|a|..start] == ValueTag;
    FindFirst(s, ValueTag, 0, |a|);
    assert s[start + |v| + 1..start + |v| + 4] == EndTag;
    FindFirst(s, EndTag, 0, start + |v| + 1);
    assert s[start..start + |v|] == v;
  }

  /** No `'value':'` starts inside the part of the URL payload before its
      own `'value':'`. */
  lemma UrlPrefixHasOneValueTag(head: string, mid: string, b: string)
    requires head == "{'" && mid == "alues':[{" + NameTag + "URL" + Quote + ", 'type':'str', "
    ensures forall i: nat :: i < |head| + 1 + |mid| ==> !OccursAt(head + "v" + mid + ValueTag + b, ValueTag, i)
  {
    var s := head + "v" + mid + ValueTag + b;
    assert 'v' !in head && 'v' !in mid;
    forall i: nat | i < |head| + 1 + |mid| ensures !OccursAt(s, ValueTag, i) {
      if i == 1 {
        assert s[7] == mid[4];
        MismatchAt(s, ValueTag, 1, 6);
      } else {
        if i == 0 {
          assert s[1] == head[1];
        } else if i + 1 < |head| + 1 + |mid| {
          assert s[i + 1] == mid[i + 1 - 3];
        } else {
          assert s[i + 1] == ValueTag[0];
        }
        MismatchAt(s, ValueTag, i, 1);
      }
    }
  }

  /** The first `}]}` after a `}`-free prefix, a value without `}]}` and a
      quote is the one the quote opens. */
  lemma EndTagAfterValue(a: string, v: string, b: string)
    requires '}' !in a && !Contains(v, EndTag)
    ensures forall i: nat :: i < |a| + |v| + 1 ==> !OccursAt(a + v + "'}]}" + b, EndTag, i)
  {
    var s := a + v + "'}]}" + b;
    var q := |a| + |v|;
    assert s[q] == '\'';
    FirstCharAbsent(a, v + "'}]}" + b, EndTag);
    assert s == a + (v + "'}]}" + b);
    forall i: nat | |a| <= i < q + 1 ensures !OccursAt(s, EndTag, i) {
      if i + 3 <= q {
        assert s[i..i + 3] == v[i - |a|..i - |a| + 3];
        assert !OccursAt(v, EndTag, i - |a|);
      } else if i + 3 <= |s| {
        MismatchAt(s, EndTag, i, q - i);
      }
    }
  }

  /** The URL payload's prefix, cut at its value. */
  lemma UrlPrefixAtValue()
    ensures UrlPrefix == "{'" + "v" + ("alues':[{" + NameTag + "URL" + Quote + ", 'type':'str', ") + ValueTag
  {
    assert "{'values':[{" == "{'" + "v" + "alues':[{";
    RegroupMiddle("{'" + "v", "alues':[{", NameTag, "URL", Quote, ", 'type':'str', ", ValueTag);
  }

  lemma Associate(x: string, y: string, z: string)
    ensures x + (y + z) == x + y + z
  {
  }

  /** Concatenation regrouped around a five-part middle. */
  lemma RegroupMiddle(p: string, a: string, b: string, c: string, d: string, e: string, f: string)
    ensures p + a + b + c + d + e + f == p + (a + b + c + d + e) + f
  {
  }

  /** The URL payload's prefix holds no `}`. */
  lemma UrlPrefixNoBrace()
    ensures '}' !in UrlPrefix
  {
  }

  /** Read back by the value scanner, the synthesised URL payload yields the
      evaluation of the URL text, provided the URL does not itself contain
      `}]}`. */
  lemma UrlPayloadValue(url: string, literal: string -> Option<Value>)
    requires !Contains(url, EndTag)
    ensures Find(UrlValuesJson(url), ValueTag, 0) != -1 && Find(UrlValuesJson(url), EndTag, 0) != -1
    ensures ValueText(UrlValuesJson(url)) == url
    ensures ScanValue(UrlValuesJson(url), literal) == (if literal(url).Some? then Ok(literal(url).value) else Raised)
  {
    var head := "{'";
    var mid := "alues':[{" + NameTag + "URL" + Quote + ", 'type':'str', ";
    UrlPrefixAtValue();
    UrlPrefixNoBrace();
    var a := head + "v" + mid;
    var s := a + ValueTag + url + "'}]}" + "";
    assert UrlValuesJson(url) == s;
    UrlPrefixHasOneValueTag(head, mid, url + "'}]}" + "");
    assert head + "v" + mid + ValueTag + (url + "'}]}" + "") == s;
    EndTagAfterValue(UrlPrefix, url, "");
    assert UrlPrefix + url + "'}]}" + "" == s;
    ScanValueInverse(a, url, "", literal);
  }

  /** `__string_to_value(string)`: the structured parse when it gives a
      `value`, else the scanner. A payload that is not text makes both the
      parse and `find` raise. */
  function StringToValue(values: Value, parseFirst: string -> Option<Dict>,
                         literal: string -> Option<Value>): (r: Result<Value>)
    ensures !values.Str? ==> r.Raised?
    ensures values.Str? && parseFirst(values.s).Some? && "value" in parseFirst(values.s).value ==>
              r == Ok(parseFirst(values.s).value["value"])
    ensures values.Str? && !(parseFirst(values.s).Some? && "value" in parseFirst(values.s).value) ==>
              r == ScanValue(values.s, literal)
  {
    if !values.Str? then Raised
    else match parseFirst(values.s)
      case Some(first) =>
        if "value" in first then Ok(first["value"]) else ScanValue(values.s, literal)
      case None => ScanValue(values.s, literal)
  }

  /** `__string_to_name(string)`: the structured parse when it gives a
      `name`, else the scanner, whose `None` is Python's `None`. */
  function StringToName(values: Value, parseFirst: string -> Option<Dict>): (r: Result<Value>)
    ensures !values.Str? ==> r.Raised?
    ensures values.Str? && parseFirst(values.s).Some? && "name" in parseFirst(values.s).value ==>
              r == Ok(parseFirst(values.s).value["name"])
    ensures values.Str? && !(parseFirst(values.s).Some? && "name" in parseFirst(values.s).value) ==>
              r == Ok(match ScanName(values.s) case Some(n) => Str(n) case None => Null)
  {
    if !values.Str? then Raised
    else match parseFirst(values.s)
      case Some(first) =>
        if "name" in first then Ok(first["name"])
        else Ok(match ScanName(values.s) case Some(n) => Str(n) case None => Null)
      case None => Ok(match ScanName(values.s) case Some(n) => Str(n) case None => Null)
  }

  /** A telemetry value saved on the device entity. */
  datatype EnvRecord = EnvRecord(timestamp: string, name: Value, value: Value)

  /** The record `save_data_to_Device` pushes for a message, or `None` when it
      pushes nothing: a type other than `EnvVar` or `CommandReply`, a missing
      `var` or `values`, or a raising scan (the exception is swallowed). */
  function DeviceRecord(m: Dict, stamp: string, parseFirst: string -> Option<Dict>,
                        literal: string -> Option<Value>): (r: Option<EnvRecord>)
    ensures r.Some? <==>
              (GetMessageType(m) == Some(EnvVar) || GetMessageType(m) == Some(CommandReply)) &&
              VarKey in m && ValuesKey in m &&
              StringToValue(m[ValuesKey], parseFirst, literal).Ok? &&
              StringToName(m[ValuesKey], parseFirst).Ok?
    ensures r.Some? ==> (m[ValuesKey].Str? && r.value.timestamp == stamp &&
                         r.value.value == StringToValue(m[ValuesKey], parseFirst, literal).value &&
                         r.value.name == StringToName(m[ValuesKey], parseFirst).value)
  {
    var t := GetMessageType(m);
    if t != Some(EnvVar) && t != Some(CommandReply) then None
    else if VarKey !in m || ValuesKey !in m then None
    else match StringToValue(m[ValuesKey], parseFirst, literal)
      case Raised => None
      case Ok(value) =>
        match StringToName(m[ValuesKey], parseFirst)
        case Raised => None
        case Ok(name) => Some(EnvRecord(stamp, name, value))
  }

  /** `save_data_to_Device(pydict, deviceId)`: the record goes to the front
      of the device's list for that variable, capped at `MaxListSize`. */
  method SaveDataToDevice(store: PropertyStore<(string, Value), EnvRecord>, m: Dict, deviceId: string,
                          stamp: string, parseFirst: string -> Option<Dict>, literal: string -> Option<Value>)
    modifies store
    ensures DeviceRecord(m, stamp, parseFirst, literal).None? ==> store.lists == old(store.lists)
    ensures DeviceRecord(m, stamp, parseFirst, literal).Some? ==>
              store.lists == old(store.lists)[(deviceId, m[VarKey]) :=
                Pushed(old(store.Get((deviceId, m[VarKey]))), DeviceRecord(m, stamp, parseFirst, literal).value)]
  {
    var t := GetMessageType(m);
    if t != Some(EnvVar) && t != Some(CommandReply) {
      return;
    }
    if VarKey !in m || ValuesKey !in m {
      return;
    }
    var varName := m[VarKey];
    var value := StringToValue(m[ValuesKey], parseFirst, literal);
    if value.Raised? {
      return;
    }
    var name := StringToName(m[ValuesKey], parseFirst);
    if name.Raised? {
      return;
    }
    store.Push((deviceId, varName), EnvRecord(stamp, name.value, value.value));
  }

  /** What `parse` did with a message. */
  datatype Dispatch =
    | Rejected
    | ChunkHandled(outcome: ImageChunking.ChunkOutcome)
    | UploadAnnounced
    | RecipeIgnored
    | Notified(published: Option<Dict>)
    | Telemetry(inserted: Option<seq<Row>>)
    | TelemetryRaised

  /** `parse(device_ID, message)`. Telemetry is saved on the device and, when
      `makeBQRowList` says so, its rows are handed to the warehouse insert
      (`inserted`); a non-string `var` makes the row builder raise out of
      `parse` after the device save. */
  method Parse(deviceId: string, m: Dict, cache: ImageChunking.ChunkCache,
               data: PropertyStore<(string, Value), EnvRecord>, now: int, publicUrl: string, stamp: string,
               parseFirst: string -> Option<Dict>, literal: string -> Option<Value>) returns (d: Dispatch)
    modifies cache, data
    ensures !ValidateMessage(m) ==>
              d == Rejected && data.lists == old(data.lists) &&
              cache.chunks == old(cache.chunks) && cache.turds == old(cache.turds)
    ensures ValidateMessage(m) && GetMessageType(m) == Some(Image) ==>
              d.ChunkHandled? && data.lists == old(data.lists)
    ensures ValidateMessage(m) && GetMessageType(m) == Some(ImageUpload) ==>
              d == UploadAnnounced && data.lists == old(data.lists) &&
              cache.chunks == old(cache.chunks) && cache.turds == old(cache.turds)
    ensures ValidateMessage(m) && GetMessageType(m) == Some(RecipeEvent) ==>
              d == (if RecipeAction(DictGet(m, RecipeActionKey)).None? then RecipeIgnored
                    else Notified(RecipeEventMessage(deviceId, m))) &&
              data.lists == old(data.lists) &&
              cache.chunks == old(cache.chunks) && cache.turds == old(cache.turds)
    ensures ValidateMessage(m) && GetMessageType(m) in {Some(EnvVar), Some(CommandReply)} ==>
              cache.chunks == old(cache.chunks) && cache.turds == old(cache.turds) &&
              (DeviceRecord(m, stamp, parseFirst, literal).None? ==> data.lists == old(data.lists)) &&
              (DeviceRecord(m, stamp, parseFirst, literal).Some? ==>
                 data.lists == old(data.lists)[(deviceId, m[VarKey]) :=
                   Pushed(old(data.Get((deviceId, m[VarKey]))), DeviceRecord(m, stamp, parseFirst, literal).value)]) &&
              var rows := MakeEnvVarRowList(m, deviceId, [], RowKeyFor(GetMessageType(m)).value, stamp);
              d == (if rows.Raised? then TelemetryRaised else Telemetry(Some(rows.value)))
  {
    if !ValidateMessage(m) {
      return Rejected;
    }
    var t := GetMessageType(m);
    if t == Some(Image) {
      var outcome := cache.SaveOldChunkedImage(m, deviceId, now, publicUrl, stamp);
      return ChunkHandled(outcome);
    }
    if t == Some(ImageUpload) {
      return UploadAnnounced;
    }
    if t == Some(RecipeEvent) {
      var eventType := RecipeAction(DictGet(m, RecipeActionKey));
      if eventType.None? {
        return RecipeIgnored;
      }
      var name := DictGet(m, RecipeNameKey);
      var published := NotificationMessaging.PublishMessage(deviceId,
                         NotificationMessaging.EventName(eventType.value), name);
      return Notified(published);
    }
    SaveDataToDevice(data, m, deviceId, stamp, parseFirst, literal);
    var rowsList := new RowList();
    var insert, raised := MakeBQRowList(rowsList, m, deviceId, stamp);
    if raised {
      return TelemetryRaised;
    }
    return Telemetry(if insert then Some(rowsList.rows) else None);
  }
}
