/**
 * The second copy of the discovery parser (pkg/logic/discovery.go), used by
 * the device adapter. It differs from the plugin's own copy only in its topic
 * guard, which asks for five levels
 * (`<prefix>/<component>/<node_id>/<object_id>/config`) where the other asks
 * for four.
 */
module LogicDiscovery {
  import opened Wrappers
  import opened GoStrings
  import opened Json
  import opened HaPayload
  import Discovery

  const MinLevels: nat := 5

  /** ParseDiscovery: the topic guard first, then the body, then the unique ID. */
  function ParseDiscovery(topic: string, body: Decoded): (r: Result<Discovery.Parsed, Discovery.ParseError>)
    ensures r.Ok? <==> IsConfigTopic(topic, MinLevels) && body.Decoded? && body.data.uniqueId != ""
    ensures r.Ok? ==> r.value.data == body.data && r.value.data.uniqueId != ""
    ensures r.Ok? ==> |Levels(topic)| >= 5 && r.value.entityType == Levels(topic)[1]
    ensures r == Err(Discovery.InvalidTopic) <==> !IsConfigTopic(topic, MinLevels)
    ensures r == Err(Discovery.DecodeError) <==> IsConfigTopic(topic, MinLevels) && body.Malformed?
  {
    var parts := Levels(topic);
    if |parts| < MinLevels || parts[|parts| - 1] != "config" then Err(Discovery.InvalidTopic)
    else
      match body
      case Malformed => Err(Discovery.DecodeError)
      case Decoded(data) =>
        if data.uniqueId == "" then Err(Discovery.MissingUniqueId)
        else Ok(Discovery.Parsed(data, parts[1]))
  }

  /** PayloadToString: string identity, "true"/"false", decimal text of a number, otherwise empty. */
  function PayloadToString(v: Json): string {
    match v
    case JString(s) => s
    case JBool(b) => if b then "true" else "false"
    case JNum(n) => IntToDecimal(n)
    case _ => ""
  }

  /** The two copies of the scalar rendering agree on every value. */
  lemma PayloadToStringAgrees(v: Json)
    ensures PayloadToString(v) == Discovery.PayloadToString(v)
  {
  }

  /**
   * Whatever this parser accepts, the plugin's parser accepts with the same
   * payload and type; on refusal the two give the same reason unless the
   * topic has exactly four levels.
   */
  lemma StricterThanPlugin(topic: string, body: Decoded)
    ensures ParseDiscovery(topic, body).Ok? ==> Discovery.ParseDiscovery(topic, body) == ParseDiscovery(topic, body)
    ensures |Levels(topic)| != 4 ==> Discovery.ParseDiscovery(topic, body) == ParseDiscovery(topic, body)
  {
  }

  /** A four-level topic passes the plugin's guard but not this one. */
  lemma FourLevelTopic(data: Payload)
    requires data.uniqueId != ""
    ensures Discovery.ParseDiscovery(Join(["a", "b", "c", "config"], '/'), Decoded(data)).Ok?
    ensures ParseDiscovery(Join(["a", "b", "c", "config"], '/'), Decoded(data)) == Err(Discovery.InvalidTopic)
  {
    var parts := ["a", "b", "c", "config"];
    JoinSplit(parts, '/');
    assert Levels(Join(parts, '/')) == parts;
  }
}
