/**
 * The plugin object of plugin.go: its discovered-entity store, mutated in
 * place by discovery messages and the delete callbacks, and the list, command
 * and event callbacks the host calls on it.
 */
module Plugin {
  import opened Wrappers
  import opened GoStrings
  import opened Sorting
  import opened HaPayload
  import opened Discovery
  import opened PluginIds
  import opened PluginStore
  import opened PluginLists
  import opened PluginCommands

  /** What the command lookup may have found for an entity ID: a matching entry, or nothing when none matches. */
  ghost predicate LookupFor(m: map<string, Entry>, entityId: string, found: Option<Entry>) {
    match found
    case None => forall k :: k in m ==> EntryEntityId(m[k]) != entityId
    case Some(e) => e in m.Values && EntryEntityId(e) == entityId
  }

  /** The `byID` loop over the host's devices. */
  method IndexDevices(current: seq<Device>) returns (byId: map<string, Device>)
    ensures byId == DevicesById(current)
  {
    byId := map[];
    var i := 0;
    while i < |current|
      invariant 0 <= i <= |current|
      invariant byId == DevicesById(current[..i])
    {
      assert current[..i + 1][..i] == current[..i];
      byId := byId[current[i].id := current[i]];
      i := i + 1;
    }
    assert current[..|current|] == current;
  }

  /** The `byID` loop over the host's entities. */
  method IndexEntities(current: seq<Entity>) returns (byId: map<string, Entity>)
    ensures byId == EntitiesById(current)
  {
    byId := map[];
    var i := 0;
    while i < |current|
      invariant 0 <= i <= |current|
      invariant byId == EntitiesById(current[..i])
    {
      assert current[..i + 1][..i] == current[..i];
      byId := byId[current[i].id := current[i]];
      i := i + 1;
    }
    assert current[..|current|] == current;
  }

  /** The keys of the store in the order a Go `range` over the map happens to visit them. */
  method KeyOrder(m: map<string, Entry>) returns (order: seq<string>)
    ensures Enumerates(order, m.Keys)
  {
    order := [];
    var keys := m.Keys;
    ghost var done: set<string> := {};
    while keys != {}
      invariant keys <= m.Keys && done == m.Keys - keys
      invariant Enumerates(order, done)
      decreases keys
    {
      var k :| k in keys;
      EnumeratesSnoc(order, done, k);
      order := order + [k];
      done := done + {k};
      keys := keys - {k};
    }
  }

  /** The loop over the store in OnDevicesList, visiting its keys in some order. */
  method MergeDiscoveredDevices(start: map<string, Device>, m: map<string, Entry>, reconcile: (Device, Device) -> Device)
    returns (byId: map<string, Device>, order: seq<string>)
    ensures Enumerates(order, m.Keys)
    ensures byId == MergeDevices(start, EntriesIn(m, order), reconcile)
  {
    order := KeyOrder(m);
    byId := start;
    for i := 0 to |order|
      invariant byId == MergeDevices(start, EntriesIn(m, order[..i]), reconcile)
    {
      MergeDevicesPrefix(start, m, order, i, reconcile);
      byId := DeviceStep(byId, m[order[i]], reconcile);
    }
    assert order[..|order|] == order;
  }

  /** The loop over the store in OnEntitiesList, visiting its keys in some order. */
  method MergeDiscoveredEntities(start: map<string, Entity>, d: string, m: map<string, Entry>)
    returns (byId: map<string, Entity>, order: seq<string>)
    ensures Enumerates(order, m.Keys)
    ensures byId == MergeEntities(start, d, EntriesIn(m, order))
  {
    order := KeyOrder(m);
    byId := start;
    for i := 0 to |order|
      invariant byId == MergeEntities(start, d, EntriesIn(m, order[..i]))
    {
      MergeEntitiesPrefix(start, d, m, order, i);
      byId := EntityStep(byId, d, m[order[i]]);
    }
    assert order[..|order|] == order;
  }

  /** Collect the devices of `byId` and sort them by ID (`sort.Slice` on distinct IDs). */
  method SortDevices(byId: map<string, Device>) returns (out: seq<Device>)
    requires DevicesKeyed(byId)
    ensures ListsDevices(out, byId)
  {
    var ids := SortedKeys(byId.Keys);
    out := [];
    var j := 0;
    while j < |ids|
      invariant 0 <= j <= |ids|
      invariant |out| == j && forall n :: 0 <= n < j ==> out[n] == byId[ids[n]]
    {
      out := out + [byId[ids[j]]];
      j := j + 1;
    }
    assert IdsOfDevices(out) == ids;
  }

  /** Collect the entities of `byId` and sort them by ID (`sort.Slice` on distinct IDs). */
  method SortEntities(byId: map<string, Entity>) returns (out: seq<Entity>)
    requires EntitiesKeyed(byId)
    ensures ListsEntities(out, byId)
  {
    var ids := SortedKeys(byId.Keys);
    out := [];
    var j := 0;
    while j < |ids|
      invariant 0 <= j <= |ids|
      invariant |out| == j && forall n :: 0 <= n < j ==> out[n] == byId[ids[n]]
    {
      out := out + [byId[ids[j]]];
      j := j + 1;
    }
    assert IdsOfEntities(out) == ids;
  }

  class Zigbee2mqttPlugin {
    /** The discovered entities, keyed by unique ID. */
    var discovered: map<string, Entry>
    /** Whether a broker client is set (`client != nil`). */
    var connected: bool

    /** Every entry sits under its own unique ID. */
    ghost predicate Valid()
      reads this
    {
      KeyedByUniqueId(discovered)
    }

    /** NewPlugin: an empty store and no client. */
    constructor ()
      ensures discovered == map[] && !connected
      ensures Valid()
    {
      discovered := map[];
      connected := false;
    }

    /**
     * The part of OnReady that decides whether a client is set: only a
     * configured URL, a successful connect and a successful discovery
     * subscription leave one behind.
     */
    method OnReady(mqttUrl: string, connectOk: bool, subscribeOk: bool)
      modifies this
      ensures connected == (old(connected) || (mqttUrl != "" && connectOk && subscribeOk))
      ensures discovered == old(discovered)
    {
      if mqttUrl == "" {
        return;
      }
      if !connectOk {
        return;
      }
      if !subscribeOk {
        return;
      }
      connected := true;
    }

    /** handleDiscoveryMessage: parse the message and upsert its entry under the unique ID. */
    method HandleDiscoveryMessage(topic: string, body: Decoded)
      requires Valid()
      modifies this
      ensures discovered == ApplyDiscovery(old(discovered), topic, body)
      ensures connected == old(connected)
      ensures Valid()
    {
      var parsed := ParseDiscovery(topic, body);
      if parsed.Err? {
        return;
      }
      var data := parsed.value.data;
      var valueKey := ExtractValueKey(data.valueTemplate);
      var entry := Entry(
        data.uniqueId,
        data.name,
        data.device.name,
        DeviceKeyFromDiscovery(data),
        parsed.value.entityType,
        data.stateTopic,
        data.commandTopic,
        PayloadToString(data.payloadOn),
        PayloadToString(data.payloadOff),
        valueKey);
      discovered := discovered[data.uniqueId := entry];
      ApplyDiscoveryKeyed(old(discovered), topic, body);
    }

    /** OnDeviceDelete: drop every entry whose device ID is `id`. */
    method OnDeviceDelete(id: string)
      requires Valid()
      modifies this
      ensures discovered == WithoutDevice(old(discovered), id)
      ensures connected == old(connected)
      ensures Valid()
    {
      ghost var start := discovered;
      var keys := discovered.Keys;
      while keys != {}
        invariant keys <= discovered.Keys <= start.Keys
        invariant connected == old(connected)
        invariant forall k :: k in discovered ==> discovered[k] == start[k]
        invariant forall k :: k in start ==> (k in discovered <==> k in keys || EntryDeviceId(start[k]) != id)
        decreases keys
      {
        var k :| k in keys;
        if EntryDeviceId(discovered[k]) == id {
          discovered := discovered - {k};
        }
        keys := keys - {k};
      }
      WithoutDeviceExactly(start, discovered, id);
      WithoutDeviceEffect(start, id);
    }

    /** OnEntityDelete: drop the first entry visited whose device and entity IDs match, if any. */
    method OnEntityDelete(d: string, e: string) returns (ghost picked: Option<string>)
      requires Valid()
      modifies this
      ensures ValidPick(old(discovered), d, e, picked)
      ensures discovered == WithoutEntity(old(discovered), d, e, picked)
      ensures connected == old(connected)
      ensures Valid()
    {
      picked := None;
      var keys := discovered.Keys;
      while keys != {}
        invariant keys <= discovered.Keys
        invariant discovered == old(discovered) && connected == old(connected)
        invariant forall k :: k in discovered && k !in keys ==> !MatchesEntity(discovered[k], d, e)
        decreases keys
      {
        var k :| k in keys;
        if EntryDeviceId(discovered[k]) == d && EntryEntityId(discovered[k]) == e {
          discovered := discovered - {k};
          picked := Some(k);
          break;
        }
        keys := keys - {k};
      }
      WithoutEntityEffect(old(discovered), d, e, picked);
    }

    /**
     * OnDevicesList: the host's devices by ID, merged with one device per
     * entry that has a device key (visiting the store in some order), sorted
     * by ID.
     */
    method OnDevicesList(current: seq<Device>, reconcile: (Device, Device) -> Device)
      returns (out: seq<Device>, order: seq<string>)
      requires forall a, b :: reconcile(a, b).id == b.id
      ensures Enumerates(order, discovered.Keys)
      ensures ListsDevices(out, MergeDevices(DevicesById(current), EntriesIn(discovered, order), reconcile))
    {
      var byId := IndexDevices(current);
      byId, order := MergeDiscoveredDevices(byId, discovered, reconcile);
      MergeDevicesKeys(DevicesById(current), EntriesIn(discovered, order), reconcile);
      out := SortDevices(byId);
    }

    /**
     * OnEntitiesList: the host's entities of device `d` by ID, merged with one
     * entity per entry of `d` (visiting the store in some order) that keeps
     * the host's Data, sorted by ID.
     */
    method OnEntitiesList(d: string, current: seq<Entity>) returns (out: seq<Entity>, order: seq<string>)
      ensures Enumerates(order, discovered.Keys)
      ensures ListsEntities(out, MergeEntities(EntitiesById(current), d, EntriesIn(discovered, order)))
    {
      var byId := IndexEntities(current);
      byId, order := MergeDiscoveredEntities(byId, d, discovered);
      MergeEntitiesKeys(EntitiesById(current), d, EntriesIn(discovered, order));
      out := SortEntities(byId);
    }

    /**
     * OnCommand: look up the entry for the entity's ID, choose the payload
     * for the parsed command and publish it to the entry's command topic;
     * `publishOk` is the broker's answer.
     */
    method OnCommand(cmd: LightCommand, entity: Entity, publishOk: bool)
      returns (r: CommandResult, found: Option<Entry>)
      ensures connected ==> LookupFor(discovered, entity.id, found)
      ensures r == Command(connected, found, cmd, entity, publishOk)
    {
      found := None;
      if !connected {
        return CommandResult(entity, Some(NotConnected), None), found;
      }

      var hit: Option<Entry> := None;
      var keys := discovered.Keys;
      while keys != {}
        invariant keys <= discovered.Keys
        invariant hit == None
        invariant forall k :: k in discovered && k !in keys ==> EntryEntityId(discovered[k]) != entity.id
        decreases keys
      {
        var k :| k in keys;
        if EntryEntityId(discovered[k]) == entity.id {
          hit := Some(discovered[k]);
          break;
        }
        keys := keys - {k};
      }
      found := hit;

      if hit.None? || hit.value.commandTopic == "" {
        return CommandResult(entity, Some(CommandTopicNotFound(entity.id)), None), found;
      }
      var ent := hit.value;

      var payload: string;
      match cmd {
        case Unparsable(reason) =>
          return CommandResult(entity, Some(BadCommand(reason)), None), found;
        case TurnOn =>
          payload := ent.payloadOn;
        case TurnOff =>
          payload := ent.payloadOff;
        case SetRgb(rgb) =>
          if rgb.None? || |rgb.value| != 3 {
            return CommandResult(entity, Some(InvalidRgb), None), found;
          }
          payload := RgbPayload(rgb.value[0], rgb.value[1], rgb.value[2]);
        case OtherAction(action) =>
          return CommandResult(entity, Some(Unsupported(action)), None), found;
      }

      var pub := Publication(ent.commandTopic, payload);
      if !publishOk {
        return CommandResult(entity, Some(PublishFailed), Some(pub)), found;
      }
      var updated := entity.(data := entity.data.(syncStatus := "pending"));
      r := CommandResult(updated, None, Some(pub));
    }
  }
}
