/**
 * The plugin's store of discovered entities (the `discovered` map of
 * plugin.go): the record kept per entity, and what a discovery message and the
 * two delete callbacks do to the map, as functions of the old map.
 */
module PluginStore {
  import opened Wrappers
  import opened HaPayload
  import opened Discovery
  import opened PluginIds

  /** discoveredEntity: what the plugin remembers about one discovered entity. */
  datatype Entry = Entry(
    uniqueId: string,
    name: string,
    deviceName: string,
    deviceKey: string,
    entityType: string,
    stateTopic: string,
    commandTopic: string,
    payloadOn: string,
    payloadOff: string,
    valueKey: string)

  /** The record handleDiscoveryMessage builds from a parsed message. */
  function EntryOf(p: Parsed): Entry {
    Entry(
      p.data.uniqueId,
      p.data.name,
      p.data.device.name,
      DeviceKeyFromDiscovery(p.data),
      p.entityType,
      p.data.stateTopic,
      p.data.commandTopic,
      PayloadToString(p.data.payloadOn),
      PayloadToString(p.data.payloadOff),
      ValueKey(p.data.valueTemplate))
  }

  /** Every entry sits under its own, non-empty unique ID. */
  predicate KeyedByUniqueId(m: map<string, Entry>) {
    forall k :: k in m ==> k != "" && m[k].uniqueId == k
  }

  /** The store after one discovery message: parsed messages are upserted under their unique ID. */
  function ApplyDiscovery(m: map<string, Entry>, topic: string, body: Decoded): map<string, Entry> {
    match ParseDiscovery(topic, body)
    case Err(_) => m
    case Ok(p) => m[p.data.uniqueId := EntryOf(p)]
  }

  /**
   * A message that does not parse leaves the store as it was; one that does
   * sets exactly the entry under its unique ID and touches no other key.
   */
  lemma ApplyDiscoveryEffect(m: map<string, Entry>, topic: string, body: Decoded)
    ensures ParseDiscovery(topic, body).Err? ==> ApplyDiscovery(m, topic, body) == m
    ensures ParseDiscovery(topic, body).Ok? ==>
      var p := ParseDiscovery(topic, body).value;
      var r := ApplyDiscovery(m, topic, body);
      && r.Keys == m.Keys + {body.data.uniqueId}
      && r[body.data.uniqueId] == EntryOf(p)
      && r[body.data.uniqueId].entityType == Levels(topic)[1]
      && forall k :: k in m && k != body.data.uniqueId ==> r[k] == m[k]
  {
  }

  /** Applying the same message twice gives the store applying it once gives. */
  lemma ApplyDiscoveryIdempotent(m: map<string, Entry>, topic: string, body: Decoded)
    ensures ApplyDiscovery(ApplyDiscovery(m, topic, body), topic, body) == ApplyDiscovery(m, topic, body)
  {
  }

  /** A store keyed by unique ID stays keyed by unique ID. */
  lemma ApplyDiscoveryKeyed(m: map<string, Entry>, topic: string, body: Decoded)
    ensures KeyedByUniqueId(m) ==> KeyedByUniqueId(ApplyDiscovery(m, topic, body))
  {
  }

  /** The host device an entry belongs to. */
  function EntryDeviceId(e: Entry): string {
    DeviceId(e.deviceKey)
  }

  /** The host entity an entry stands for. */
  function EntryEntityId(e: Entry): string {
    EntityId(e.uniqueId)
  }

  /** What OnDeviceDelete(id) leaves: every entry whose device ID is not `id`. */
  function WithoutDevice(m: map<string, Entry>, id: string): map<string, Entry> {
    map k | k in m && EntryDeviceId(m[k]) != id :: m[k]
  }

  /**
   * Deleting a device removes exactly the entries of that device: no entry
   * of it is left, every other entry stays as it was, and deleting again
   * changes nothing.
   */
  lemma WithoutDeviceEffect(m: map<string, Entry>, id: string)
    ensures forall k :: k in WithoutDevice(m, id) ==> EntryDeviceId(WithoutDevice(m, id)[k]) != id
    ensures forall k :: k in m && EntryDeviceId(m[k]) != id ==> k in WithoutDevice(m, id) && WithoutDevice(m, id)[k] == m[k]
    ensures WithoutDevice(WithoutDevice(m, id), id) == WithoutDevice(m, id)
    ensures KeyedByUniqueId(m) ==> KeyedByUniqueId(WithoutDevice(m, id))
  {
  }

  /**
   * A store that kept exactly the entries of `m` not of device `id`, each
   * unchanged, is WithoutDevice(m, id).
   */
  lemma WithoutDeviceExactly(m: map<string, Entry>, r: map<string, Entry>, id: string)
    requires r.Keys <= m.Keys
    requires forall k :: k in r ==> r[k] == m[k]
    requires forall k :: k in m ==> (k in r <==> EntryDeviceId(m[k]) != id)
    ensures r == WithoutDevice(m, id)
  {
  }

  /** The entries OnEntityDelete(d, e) may remove: device ID `d` and entity ID `e`. */
  predicate MatchesEntity(x: Entry, d: string, e: string) {
    EntryDeviceId(x) == d && EntryEntityId(x) == e
  }

  /** What OnEntityDelete leaves: the store without the one matching entry it picked, if any. */
  function WithoutEntity(m: map<string, Entry>, d: string, e: string, picked: Option<string>): map<string, Entry> {
    match picked
    case None => m
    case Some(k) => m - {k}
  }

  /** A legitimate pick: a matching key, or none exactly when no entry matches. */
  predicate ValidPick(m: map<string, Entry>, d: string, e: string, picked: Option<string>) {
    match picked
    case None => forall k :: k in m ==> !MatchesEntity(m[k], d, e)
    case Some(k) => k in m && MatchesEntity(m[k], d, e)
  }

  /**
   * OnEntityDelete removes one entry when some entry matches and none
   * otherwise; every other entry stays.
   */
  lemma WithoutEntityEffect(m: map<string, Entry>, d: string, e: string, picked: Option<string>)
    requires ValidPick(m, d, e, picked)
    ensures var r := WithoutEntity(m, d, e, picked);
      && r.Keys <= m.Keys
      && |m.Keys - r.Keys| == (if exists k :: k in m && MatchesEntity(m[k], d, e) then 1 else 0)
      && forall k :: k in r ==> r[k] == m[k]
    ensures KeyedByUniqueId(m) ==> KeyedByUniqueId(WithoutEntity(m, d, e, picked))
  {
    var r := WithoutEntity(m, d, e, picked);
    if picked.Some? {
      assert m.Keys - r.Keys == {picked.value};
    } else {
      assert m.Keys - r.Keys == {};
    }
  }
}
