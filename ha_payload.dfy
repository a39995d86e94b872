/**
 * The Home Assistant MQTT discovery message as both parsers decode it: the
 * record json.Unmarshal fills, and the topic convention
 * `<prefix>/<component>/[<node_id>/]<object_id>/config`, whose levels are
 * separated by '/' (section 4.7.1.1 of OASIS MQTT Version 3.1.1).
 */
module HaPayload {
  import opened GoStrings
  import opened Json

  /**
   * One element of `device.identifiers`, a JSON scalar. (An identifier that is
   * itself an object or array is outside this model; see README.)
   */
  datatype Identifier = IdString(s: string) | IdNumber(n: int) | IdBool(b: bool) | IdNull

  datatype DeviceInfo = DeviceInfo(
    identifiers: seq<Identifier>,
    name: string,
    model: string,
    manufacturer: string)

  /** The fields of one discovery payload; absent fields are Go's zero values ("" or nil). */
  datatype Payload = Payload(
    name: string,
    uniqueId: string,
    device: DeviceInfo,
    stateTopic: string,
    commandTopic: string,
    payloadOn: Json,
    payloadOff: Json,
    valueTemplate: string)

  /** The outcome of json.Unmarshal on the message body. */
  datatype Decoded = Malformed | Decoded(data: Payload)

  /** The topic levels. */
  function Levels(topic: string): seq<string> {
    Split(topic, '/')
  }

  /** The guard both parsers apply: at least `minLevels` levels, the last one literally `config`. */
  predicate IsConfigTopic(topic: string, minLevels: nat) {
    var levels := Levels(topic);
    |levels| >= minLevels && levels[|levels| - 1] == "config"
  }
}
