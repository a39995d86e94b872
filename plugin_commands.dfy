/**
 * What the plugin does with a host command and a host event (OnCommand and
 * OnEvent of plugin.go), as functions of the entry the command is for, the
 * parsed command and the broker's answer.
 */
module PluginCommands {
  import opened Wrappers
  import opened GoStrings
  import opened Json
  import opened PluginStore
  import opened PluginLists

  /**
   * What light.ParseCommand made of the host's command. That package is not
   * part of this model, so its outcome is an input.
   */
  datatype LightCommand =
    | Unparsable(reason: string)
    | TurnOn
    | TurnOff
    | SetRgb(rgb: Option<seq<int>>)
    | OtherAction(action: string)

  /** Why OnCommand refused or failed a command, in the order it checks. */
  datatype CommandError =
    | NotConnected
    | CommandTopicNotFound(entityId: string)
    | BadCommand(reason: string)
    | InvalidRgb
    | Unsupported(action: string)
    | PublishFailed

  /** One message handed to the broker. */
  datatype Publication = Publication(topic: string, payload: string)

  /** What OnCommand hands back: the entity, the error if any, and the publication it attempted if any. */
  datatype CommandResult = CommandResult(entity: Entity, err: Option<CommandError>, attempted: Option<Publication>)

  const ColorOpen: string := "{\"color\":{\"r\":"
  const GreenKey: string := "\"g\":"
  const BlueKey: string := "\"b\":"
  const ColorClose: string := "}}"

  /** The `{"color":{"r":%v,"g":%v,"b":%v}}` payload for integer components. */
  function RgbPayload(r: int, g: int, b: int): string {
    var red := ColorOpen + IntToDecimal(r);
    var green := GreenKey + IntToDecimal(g);
    var blue := BlueKey + IntToDecimal(b) + ColorClose;
    red + "," + green + "," + blue
  }

  /** How a receiver reads the three components back out of an RGB payload. */
  function ReadRgb(s: string): Option<(int, int, int)> {
    var parts := Split(s, ',');
    if |parts| != 3 || |parts[0]| < |ColorOpen| || |parts[1]| < |GreenKey|
       || |parts[2]| < |BlueKey| + |ColorClose| then None
    else
      var r := ParseNumber(parts[0][|ColorOpen|..]);
      var g := ParseNumber(parts[1][|GreenKey|..]);
      var b := ParseNumber(parts[2][|BlueKey|..|parts[2]| - |ColorClose|]);
      if r.Some? && g.Some? && b.Some? then Some((r.value, g.value, b.value)) else None
  }

  /** A decimal text never holds a comma. */
  lemma DecimalNoComma(n: int)
    ensures ',' !in IntToDecimal(n)
  {
    var m: nat := if n < 0 then -n else n;
    var d := NatToDecimal(m);
    assert forall i :: 0 <= i < |d| ==> IsDigit(d[i]);
    if n < 0 {
      assert IntToDecimal(n) == ['-'] + d;
    }
  }

  /** Three pieces joined by a separator. */
  lemma JoinThree(x: string, y: string, z: string, sep: char)
    ensures Join([x, y, z], sep) == x + [sep] + y + [sep] + z
  {
    assert [x, y, z] == [x] + [y, z];
    assert [y, z] == [y] + [z];
    JoinCons(x, [y, z], sep);
    JoinCons(y, [z], sep);
  }

  /** The RGB payload is its three comma-free pieces joined by commas. */
  lemma RgbPayloadPieces(r: int, g: int, b: int)
    ensures RgbPayload(r, g, b)
      == Join([ColorOpen + IntToDecimal(r), GreenKey + IntToDecimal(g), BlueKey + IntToDecimal(b) + ColorClose], ',')
  {
    JoinThree(ColorOpen + IntToDecimal(r), GreenKey + IntToDecimal(g), BlueKey + IntToDecimal(b) + ColorClose, ',');
  }

  /** Reading an RGB payload gives back the components it was made from. */
  lemma RgbRoundTrip(r: int, g: int, b: int)
    ensures ReadRgb(RgbPayload(r, g, b)) == Some((r, g, b))
  {
    var dr, dg, db := IntToDecimal(r), IntToDecimal(g), IntToDecimal(b);
    var p0, p1, p2 := ColorOpen + dr, GreenKey + dg, BlueKey + db + ColorClose;
    RgbPayloadPieces(r, g, b);
    DecimalNoComma(r);
    DecimalNoComma(g);
    DecimalNoComma(b);
    assert ',' !in ColorOpen && ',' !in GreenKey && ',' !in BlueKey && ',' !in ColorClose;
    assert ',' !in p0 && ',' !in p1 && ',' !in p2;
    JoinSplit([p0, p1, p2], ',');
    assert p0[|ColorOpen|..] == dr;
    assert p1[|GreenKey|..] == dg;
    assert p2[|BlueKey|..|p2| - |ColorClose|] == db;
    ParseNumberDecimal(r);
    ParseNumberDecimal(g);
    ParseNumberDecimal(b);
  }

  /** Different colours give different payloads. */
  lemma RgbPayloadInjective(r: int, g: int, b: int, r2: int, g2: int, b2: int)
    requires RgbPayload(r, g, b) == RgbPayload(r2, g2, b2)
    ensures r == r2 && g == g2 && b == b2
  {
    RgbRoundTrip(r, g, b);
    RgbRoundTrip(r2, g2, b2);
  }

  /** The payload OnCommand chooses for a parsed command, or why it chooses none. */
  function CommandPayload(e: Entry, cmd: LightCommand): Result<string, CommandError> {
    match cmd
    case Unparsable(reason) => Err(BadCommand(reason))
    case TurnOn => Ok(e.payloadOn)
    case TurnOff => Ok(e.payloadOff)
    case SetRgb(rgb) =>
      if rgb.None? || |rgb.value| != 3 then Err(InvalidRgb)
      else Ok(RgbPayload(rgb.value[0], rgb.value[1], rgb.value[2]))
    case OtherAction(action) => Err(Unsupported(action))
  }

  /**
   * OnCommand for an entity, given whether a broker client exists, the entry
   * the lookup found for the entity's ID, and whether the broker accepted
   * the publication.
   */
  function Command(connected: bool, found: Option<Entry>, cmd: LightCommand, entity: Entity, publishOk: bool): CommandResult {
    if !connected then CommandResult(entity, Some(NotConnected), None)
    else if found.None? || found.value.commandTopic == "" then
      CommandResult(entity, Some(CommandTopicNotFound(entity.id)), None)
    else
      match CommandPayload(found.value, cmd)
      case Err(e) => CommandResult(entity, Some(e), None)
      case Ok(payload) =>
        var pub := Publication(found.value.commandTopic, payload);
        if !publishOk then CommandResult(entity, Some(PublishFailed), Some(pub))
        else CommandResult(entity.(data := entity.data.(syncStatus := "pending")), None, Some(pub))
  }

  /**
   * A command fails, and hands the entity back untouched, unless a client
   * exists, an entry with a command topic was found, the command yields a
   * payload and the broker accepts it; on success only the sync status
   * changes, to "pending", and the payload went to the entry's command topic.
   */
  lemma CommandOutcome(connected: bool, found: Option<Entry>, cmd: LightCommand, entity: Entity, publishOk: bool)
    ensures var r := Command(connected, found, cmd, entity, publishOk);
      && (r.err.None? <==>
            connected && found.Some? && found.value.commandTopic != "" && CommandPayload(found.value, cmd).Ok? && publishOk)
      && (r.err.Some? ==> r.entity == entity)
      && (r.err.None? ==> r.entity == entity.(data := EntityData(entity.data.reported, "pending")))
      && (r.attempted.Some? <==>
            connected && found.Some? && found.value.commandTopic != "" && CommandPayload(found.value, cmd).Ok?)
      && (r.attempted.Some? ==> r.attempted.value == Publication(found.value.commandTopic, CommandPayload(found.value, cmd).value))
  {
  }

  /**
   * The checks come in order: no client, then no entry or no command topic,
   * then the parse error, a malformed RGB list or an unsupported action,
   * then a failed publish.
   */
  lemma CommandErrors(connected: bool, found: Option<Entry>, cmd: LightCommand, entity: Entity, publishOk: bool)
    ensures var r := Command(connected, found, cmd, entity, publishOk);
      && (!connected ==> r.err == Some(NotConnected))
      && (connected && (found.None? || found.value.commandTopic == "") ==> r.err == Some(CommandTopicNotFound(entity.id)))
      && (connected && found.Some? && found.value.commandTopic != "" ==>
            && (cmd.Unparsable? ==> r.err == Some(BadCommand(cmd.reason)))
            && (cmd.SetRgb? && (cmd.rgb.None? || |cmd.rgb.value| != 3) ==> r.err == Some(InvalidRgb))
            && (cmd.OtherAction? ==> r.err == Some(Unsupported(cmd.action)))
            && (CommandPayload(found.value, cmd).Ok? && !publishOk ==> r.err == Some(PublishFailed)))
  {
  }

  /** On and off send the entry's own payloads verbatim; RGB sends the colour object. */
  lemma CommandPayloads(e: Entry, cmd: LightCommand)
    ensures cmd.TurnOn? ==> CommandPayload(e, cmd) == Ok(e.payloadOn)
    ensures cmd.TurnOff? ==> CommandPayload(e, cmd) == Ok(e.payloadOff)
    ensures cmd.SetRgb? && cmd.rgb.Some? && |cmd.rgb.value| == 3 ==>
      CommandPayload(e, cmd).Ok? && ReadRgb(CommandPayload(e, cmd).value) == Some((cmd.rgb.value[0], cmd.rgb.value[1], cmd.rgb.value[2]))
  {
    if cmd.SetRgb? && cmd.rgb.Some? && |cmd.rgb.value| == 3 {
      var c := cmd.rgb.value;
      RgbRoundTrip(c[0], c[1], c[2]);
    }
  }

  /** OnEvent: the event's payload becomes the reported state and the entity is in sync. */
  function OnEvent(payload: string, entity: Entity): (r: Entity)
    ensures r.data == EntityData(payload, "in_sync")
    ensures r.(data := entity.data) == entity
  {
    entity.(data := EntityData(payload, "in_sync"))
  }

  /** An event after a successful command settles the "pending" status to "in_sync". */
  lemma CommandThenEvent(found: Option<Entry>, cmd: LightCommand, entity: Entity, payload: string)
    requires Command(true, found, cmd, entity, true).err.None?
    ensures Command(true, found, cmd, entity, true).entity.data.syncStatus == "pending"
    ensures OnEvent(payload, Command(true, found, cmd, entity, true).entity) == entity.(data := EntityData(payload, "in_sync"))
  {
  }
}
