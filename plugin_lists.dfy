/**
 * The device and entity lists the plugin hands back to the host
 * (OnDevicesList and OnEntitiesList of plugin.go), specified as folds over
 * the discovered entries in the order the map iteration visits them.
 */
module PluginLists {
  import opened GoStrings
  import opened PluginIds
  import opened PluginStore
  import opened Sorting

  /** The host's device record, as far as the plugin reads or writes it. */
  datatype Device = Device(id: string, sourceId: string, sourceName: string, localName: string)

  /** Go's zero Device. */
  const NoDevice := Device("", "", "", "")

  /** The host-owned part of an entity that the plugin carries over unchanged. */
  datatype EntityData = EntityData(reported: string, syncStatus: string)

  /** The host's entity record, as far as the plugin reads or writes it. */
  datatype Entity = Entity(id: string, deviceId: string, domain: string, localName: string, data: EntityData)

  /** Go's zero entity Data. */
  const NoData := EntityData("", "")

  /** `r` holds the keys of `m` plus `added`, and agrees with `m` outside `added`. */
  predicate Extends<V(==)>(m: map<string, V>, r: map<string, V>, added: set<string>) {
    && r.Keys == m.Keys + added
    && forall k :: k in r && k !in added ==> r[k] == m[k]
  }

  /** Two extensions in a row are one extension by both sets. */
  lemma ExtendsTrans<V>(a: map<string, V>, b: map<string, V>, c: map<string, V>, x: set<string>, y: set<string>)
    requires Extends(a, b, x) && Extends(b, c, y)
    ensures Extends(a, c, x + y)
  {
  }

  /** The `byID` map built from the host's current devices: a later device with the same ID wins. */
  function DevicesById(current: seq<Device>): (byId: map<string, Device>)
    ensures forall k :: k in byId ==> byId[k].id == k
    ensures byId.Keys == set i | 0 <= i < |current| :: current[i].id
  {
    if current == [] then map[]
    else
      var last := current[|current| - 1];
      var byId := DevicesById(current[..|current| - 1])[last.id := last];
      assert forall i :: 0 <= i < |current| - 1 ==> current[..|current| - 1][i] == current[i];
      byId
  }

  /** The name shown for a device: the trimmed device name, or the device key when that is blank. */
  function SourceName(e: Entry): string {
    var name := TrimSpace(e.deviceName);
    if name == "" then e.deviceKey else name
  }

  /** The device the plugin derives from one entry. */
  function DiscoveredDevice(e: Entry): Device {
    Device(EntryDeviceId(e), e.deviceKey, SourceName(e), "")
  }

  /** One turn of the OnDevicesList loop over the discovered entries. */
  function DeviceStep(byId: map<string, Device>, e: Entry, reconcile: (Device, Device) -> Device): map<string, Device> {
    if e.deviceKey == "" then byId
    else
      var id := EntryDeviceId(e);
      var existing := if id in byId then byId[id] else NoDevice;
      byId[id := reconcile(existing, DiscoveredDevice(e))]
  }

  /** The OnDevicesList loop over the entries in visiting order. */
  function MergeDevices(byId: map<string, Device>, es: seq<Entry>, reconcile: (Device, Device) -> Device): map<string, Device>
    decreases |es|
  {
    if es == [] then byId
    else DeviceStep(MergeDevices(byId, es[..|es| - 1], reconcile), es[|es| - 1], reconcile)
  }

  /** The values `f` takes on the entries that pass `keep`. */
  function Image(es: seq<Entry>, keep: Entry -> bool, f: Entry -> string): set<string> {
    set i | 0 <= i < |es| && keep(es[i]) :: f(es[i])
  }

  /** The image grows by the last entry's value, if that entry passes. */
  lemma ImageSnoc(es: seq<Entry>, keep: Entry -> bool, f: Entry -> string)
    requires es != []
    ensures var e := es[|es| - 1];
      Image(es, keep, f) == Image(es[..|es| - 1], keep, f) + (if keep(e) then {f(e)} else {})
  {
    var init := es[..|es| - 1];
    var e := es[|es| - 1];
    var rhs := Image(init, keep, f) + (if keep(e) then {f(e)} else {});
    forall x | x in Image(es, keep, f) ensures x in rhs {
      var i :| 0 <= i < |es| && keep(es[i]) && f(es[i]) == x;
      if i < |init| {
        assert init[i] == es[i];
      }
    }
    forall x | x in rhs ensures x in Image(es, keep, f) {
      if x in Image(init, keep, f) {
        var i :| 0 <= i < |init| && keep(init[i]) && f(init[i]) == x;
        assert es[i] == init[i];
      }
    }
  }

  predicate HasDeviceKey(e: Entry) {
    e.deviceKey != ""
  }

  /** The device IDs of the entries that have a device key. */
  function EntryDeviceIds(es: seq<Entry>): set<string> {
    Image(es, HasDeviceKey, EntryDeviceId)
  }

  /** Every device sits under its own ID. */
  predicate DevicesKeyed(m: map<string, Device>) {
    forall k :: k in m ==> m[k].id == k
  }

  /** The device ID an entry adds: its own, or none when it has no device key. */
  function DeviceAdded(e: Entry): set<string> {
    if HasDeviceKey(e) then {EntryDeviceId(e)} else {}
  }

  /** One step of the device merge adds the entry's device, under its own ID, and touches nothing else. */
  lemma DeviceStepShape(byId: map<string, Device>, e: Entry, reconcile: (Device, Device) -> Device)
    requires forall a, b :: reconcile(a, b).id == b.id
    requires DevicesKeyed(byId)
    ensures DevicesKeyed(DeviceStep(byId, e, reconcile))
    ensures Extends(byId, DeviceStep(byId, e, reconcile), DeviceAdded(e))
    ensures forall k :: k in DeviceAdded(e) ==>
      DeviceStep(byId, e, reconcile)[k] == reconcile(if k in byId then byId[k] else NoDevice, DiscoveredDevice(e))
  {
  }

  /**
   * The merged map holds the host's devices and one device per distinct
   * device key, whatever the visiting order, each under its own ID when the
   * reconciler keeps the discovered ID; a host device no entry maps to (a
   * "ghost" device) passes through untouched.
   */
  lemma {:induction false} MergeDevicesKeys(byId: map<string, Device>, es: seq<Entry>, reconcile: (Device, Device) -> Device)
    requires forall a, b :: reconcile(a, b).id == b.id
    requires DevicesKeyed(byId)
    ensures DevicesKeyed(MergeDevices(byId, es, reconcile))
    ensures Extends(byId, MergeDevices(byId, es, reconcile), EntryDeviceIds(es))
    decreases |es|
  {
    if es != [] {
      var init := es[..|es| - 1];
      var e := es[|es| - 1];
      var mid := MergeDevices(byId, init, reconcile);
      MergeDevicesKeys(byId, init, reconcile);
      DeviceStepShape(mid, e, reconcile);
      ExtendsTrans(byId, mid, DeviceStep(mid, e, reconcile), EntryDeviceIds(init), DeviceAdded(e));
      ImageSnoc(es, HasDeviceKey, EntryDeviceId);
    }
  }

  /** Entries without a device key contribute nothing: the host's list comes back as it was. */
  lemma {:induction false} MergeDevicesKeyless(byId: map<string, Device>, es: seq<Entry>, reconcile: (Device, Device) -> Device)
    requires forall i :: 0 <= i < |es| ==> es[i].deviceKey == ""
    ensures MergeDevices(byId, es, reconcile) == byId
    decreases |es|
  {
    if es != [] {
      MergeDevicesKeyless(byId, es[..|es| - 1], reconcile);
    }
  }

  /** The `byID` map built from the host's current entities: a later entity with the same ID wins. */
  function EntitiesById(current: seq<Entity>): (byId: map<string, Entity>)
    ensures forall k :: k in byId ==> byId[k].id == k
    ensures byId.Keys == set i | 0 <= i < |current| :: current[i].id
  {
    if current == [] then map[]
    else
      var last := current[|current| - 1];
      var byId := EntitiesById(current[..|current| - 1])[last.id := last];
      assert forall i :: 0 <= i < |current| - 1 ==> current[..|current| - 1][i] == current[i];
      byId
  }

  /** The name shown for an entity: the trimmed name, or the unique ID when that is blank. */
  function LocalName(e: Entry): string {
    var name := TrimSpace(e.name);
    if name == "" then e.uniqueId else name
  }

  /** One turn of the OnEntitiesList loop: an entry of device `d` replaces its entity but keeps the host's Data. */
  function EntityStep(byId: map<string, Entity>, d: string, e: Entry): map<string, Entity> {
    if EntryDeviceId(e) != d then byId
    else
      var id := EntryEntityId(e);
      var data := if id in byId then byId[id].data else NoData;
      byId[id := Entity(id, d, MapDomain(e.entityType), LocalName(e), data)]
  }

  /** The OnEntitiesList loop over the entries in visiting order. */
  function MergeEntities(byId: map<string, Entity>, d: string, es: seq<Entry>): map<string, Entity>
    decreases |es|
  {
    if es == [] then byId
    else EntityStep(MergeEntities(byId, d, es[..|es| - 1]), d, es[|es| - 1])
  }

  /** The entity IDs of the entries that belong to device `d`. */
  function EntryEntityIds(es: seq<Entry>, d: string): set<string> {
    Image(es, e => EntryDeviceId(e) == d, EntryEntityId)
  }

  /** Every entity sits under its own ID. */
  predicate EntitiesKeyed(m: map<string, Entity>) {
    forall k :: k in m ==> m[k].id == k
  }

  /** The entity IDs an entry of device `d` adds: its own, or none when it belongs to another device. */
  function EntityAdded(d: string, e: Entry): set<string> {
    if EntryDeviceId(e) == d then {EntryEntityId(e)} else {}
  }

  /** Entity `x` is the one the OnEntitiesList loop builds from entry `e` for device `d`. */
  predicate Describes(x: Entity, d: string, e: Entry) {
    && EntryDeviceId(e) == d
    && x.id == EntryEntityId(e)
    && x.deviceId == d
    && x.domain == MapDomain(e.entityType)
    && x.localName == LocalName(e)
  }

  /** One step of the entity merge adds the entry's entity, under its own ID, and touches nothing else. */
  lemma EntityStepShape(byId: map<string, Entity>, d: string, e: Entry)
    requires EntitiesKeyed(byId)
    ensures var r := EntityStep(byId, d, e);
      && Extends(byId, r, EntityAdded(d, e))
      && EntitiesKeyed(r)
      && (forall k :: k in EntityAdded(d, e) ==> r[k].deviceId == d && IsKnownDomain(r[k].domain))
      && (forall k :: k in EntityAdded(d, e) ==> r[k].data == (if k in byId then byId[k].data else NoData))
      && (forall k :: k in EntityAdded(d, e) ==> Describes(r[k], d, e))
  {
    MapDomainProps(e.entityType);
  }

  /**
   * The merged map holds the host's entities plus one entity per entry of
   * device `d`, each under its own ID; the host's other entities pass through
   * untouched.
   */
  lemma {:induction false} MergeEntitiesKeys(byId: map<string, Entity>, d: string, es: seq<Entry>)
    requires EntitiesKeyed(byId)
    ensures EntitiesKeyed(MergeEntities(byId, d, es))
    ensures Extends(byId, MergeEntities(byId, d, es), EntryEntityIds(es, d))
    decreases |es|
  {
    if es != [] {
      var init := es[..|es| - 1];
      var e := es[|es| - 1];
      var mid := MergeEntities(byId, d, init);
      MergeEntitiesKeys(byId, d, init);
      EntityStepShape(mid, d, e);
      ExtendsTrans(byId, mid, EntityStep(mid, d, e), EntryEntityIds(init, d), EntityAdded(d, e));
      ImageSnoc(es, e => EntryDeviceId(e) == d, EntryEntityId);
    }
  }

  /** Every entity in `ids` is in `r`, belongs to device `d`, has a known domain and carries the Data `byId` had for it. */
  predicate FromEntries(byId: map<string, Entity>, r: map<string, Entity>, d: string, ids: set<string>) {
    forall k :: k in ids ==>
      && k in r
      && r[k].deviceId == d
      && IsKnownDomain(r[k].domain)
      && r[k].data == (if k in byId then byId[k].data else NoData)
  }

  /**
   * Every entity an entry produced belongs to device `d`, has a known
   * domain, and keeps the host's Data when the host already had the entity.
   */
  lemma {:induction false} MergeEntitiesFromEntries(byId: map<string, Entity>, d: string, es: seq<Entry>)
    requires EntitiesKeyed(byId)
    ensures FromEntries(byId, MergeEntities(byId, d, es), d, EntryEntityIds(es, d))
    decreases |es|
  {
    if es != [] {
      var init := es[..|es| - 1];
      var e := es[|es| - 1];
      var mid := MergeEntities(byId, d, init);
      var r := EntityStep(mid, d, e);
      MergeEntitiesFromEntries(byId, d, init);
      MergeEntitiesKeys(byId, d, init);
      EntityStepShape(mid, d, e);
      ImageSnoc(es, e => EntryDeviceId(e) == d, EntryEntityId);
      forall k | k in EntryEntityIds(es, d)
        ensures k in r && r[k].deviceId == d && IsKnownDomain(r[k].domain)
        ensures r[k].data == (if k in byId then byId[k].data else NoData)
      {
        if k !in EntityAdded(d, e) {
          assert k in EntryEntityIds(init, d);
        } else if k in EntryEntityIds(init, d) {
          assert r[k].data == mid[k].data;
        }
      }
    }
  }

  /** Each entity of `ids` in `r` was built from some entry of `es` that belongs to device `d`. */
  predicate EntitiesBuiltFrom(r: map<string, Entity>, d: string, es: seq<Entry>, ids: set<string>) {
    forall k :: k in ids ==> k in r && exists i :: 0 <= i < |es| && Describes(r[k], d, es[i])
  }

  /**
   * Every entity an entry produced carries that entry's entity ID, the
   * device, the mapped domain and the entry's display name.
   */
  lemma {:induction false} MergeEntitiesBuiltFrom(byId: map<string, Entity>, d: string, es: seq<Entry>)
    ensures EntitiesBuiltFrom(MergeEntities(byId, d, es), d, es, EntryEntityIds(es, d))
    decreases |es|
  {
    if es != [] {
      var init := es[..|es| - 1];
      MergeEntitiesBuiltFrom(byId, d, init);
      ImageSnoc(es, e => EntryDeviceId(e) == d, EntryEntityId);
      EntitiesBuiltFromStep(MergeEntities(byId, d, init), d, es, EntryEntityIds(init, d));
    }
  }

  /** A step of MergeEntitiesBuiltFrom: one more entry keeps every entity built from an entry. */
  lemma EntitiesBuiltFromStep(mid: map<string, Entity>, d: string, es: seq<Entry>, ids: set<string>)
    requires es != []
    requires EntitiesBuiltFrom(mid, d, es[..|es| - 1], ids)
    ensures EntitiesBuiltFrom(EntityStep(mid, d, es[|es| - 1]), d, es, ids + EntityAdded(d, es[|es| - 1]))
  {
    var init := es[..|es| - 1];
    var e := es[|es| - 1];
    var r := EntityStep(mid, d, e);
    forall k | k in ids + EntityAdded(d, e)
      ensures k in r
      ensures exists i :: 0 <= i < |es| && Describes(r[k], d, es[i])
    {
      if k in EntityAdded(d, e) {
        assert Describes(r[k], d, es[|es| - 1]);
      } else {
        var i :| 0 <= i < |init| && Describes(mid[k], d, init[i]);
        assert es[i] == init[i];
      }
    }
  }

  /** The display name of an entity with a unique ID is never empty. */
  lemma LocalNameNonEmpty(e: Entry)
    requires e.uniqueId != ""
    ensures LocalName(e) != ""
    ensures TrimSpace(e.name) != "" ==> LocalName(e) == TrimSpace(e.name)
  {
  }

  /** In a store keyed by unique ID, every entry has a non-empty display name. */
  lemma StoreNamesNonEmpty(m: map<string, Entry>)
    requires KeyedByUniqueId(m)
    ensures forall k :: k in m ==> LocalName(m[k]) != ""
  {
    forall k | k in m ensures LocalName(m[k]) != "" {
      LocalNameNonEmpty(m[k]);
    }
  }

  /**
   * The device the loop hands to the reconciler for an entry with a device
   * key: its device ID, the key as source ID, and a non-empty source name,
   * the trimmed device name when that is not blank.
   */
  lemma DiscoveredDeviceShape(e: Entry)
    requires HasDeviceKey(e)
    ensures var x := DiscoveredDevice(e);
      && x.id == EntryDeviceId(e)
      && x.sourceId == e.deviceKey
      && x.sourceName != ""
      && (TrimSpace(e.deviceName) != "" ==> x.sourceName == TrimSpace(e.deviceName))
      && (TrimSpace(e.deviceName) == "" ==> x.sourceName == e.deviceKey)
      && x.localName == ""
  {
  }

  /** Each device of `ids` in `r` is what the reconciler made of the device some keyed entry of `es` describes. */
  ghost predicate DevicesBuiltFrom(r: map<string, Device>, es: seq<Entry>, ids: set<string>, reconcile: (Device, Device) -> Device) {
    forall k :: k in ids ==>
      && k in r
      && exists i, prev :: 0 <= i < |es| && HasDeviceKey(es[i]) && EntryDeviceId(es[i]) == k
           && r[k] == reconcile(prev, DiscoveredDevice(es[i]))
  }

  /** Every device an entry produced is the reconciler's answer for that entry's discovered device. */
  lemma {:induction false} MergeDevicesBuiltFrom(byId: map<string, Device>, es: seq<Entry>, reconcile: (Device, Device) -> Device)
    requires forall a, b :: reconcile(a, b).id == b.id
    requires DevicesKeyed(byId)
    ensures DevicesBuiltFrom(MergeDevices(byId, es, reconcile), es, EntryDeviceIds(es), reconcile)
    decreases |es|
  {
    if es != [] {
      var init := es[..|es| - 1];
      var e := es[|es| - 1];
      var mid := MergeDevices(byId, init, reconcile);
      var r := DeviceStep(mid, e, reconcile);
      MergeDevicesBuiltFrom(byId, init, reconcile);
      MergeDevicesKeys(byId, init, reconcile);
      DeviceStepShape(mid, e, reconcile);
      ImageSnoc(es, HasDeviceKey, EntryDeviceId);
      forall k | k in EntryDeviceIds(es)
        ensures k in r
        ensures exists i, prev ::
                  0 <= i < |es| && HasDeviceKey(es[i]) && EntryDeviceId(es[i]) == k
                  && r[k] == reconcile(prev, DiscoveredDevice(es[i]))
      {
        if k in DeviceAdded(e) {
          var prev := if k in mid then mid[k] else NoDevice;
          assert r[k] == reconcile(prev, DiscoveredDevice(es[|es| - 1]));
        } else {
          assert k in EntryDeviceIds(init);
          var i, prev :| 0 <= i < |init| && HasDeviceKey(init[i]) && EntryDeviceId(init[i]) == k
            && mid[k] == reconcile(prev, DiscoveredDevice(init[i]));
          assert es[i] == init[i];
        }
      }
    }
  }

  // ---------------------------------------------------------------------------
  // Visiting the store in map order, and the sorted lists handed back
  // ---------------------------------------------------------------------------

  /** `order` visits every key of `keys` exactly once (one possible order of a Go map range). */
  ghost predicate Enumerates(order: seq<string>, keys: set<string>) {
    && (forall i, j :: 0 <= i < j < |order| ==> order[i] != order[j])
    && (forall k :: k in order <==> k in keys)
  }

  /** Visiting one key not seen before extends an enumeration by it. */
  lemma EnumeratesSnoc(order: seq<string>, done: set<string>, k: string)
    requires Enumerates(order, done) && k !in done
    ensures Enumerates(order + [k], done + {k})
  {
  }

  /** The entries of `m` in the order `order` visits their keys. */
  function EntriesIn(m: map<string, Entry>, order: seq<string>): (es: seq<Entry>)
    requires forall k :: k in order ==> k in m
    ensures |es| == |order|
    ensures forall i :: 0 <= i < |order| ==> es[i] == m[order[i]]
  {
    if order == [] then []
    else EntriesIn(m, order[..|order| - 1]) + [m[order[|order| - 1]]]
  }

  /** Visiting one more key appends its entry. */
  lemma EntriesInSnoc(m: map<string, Entry>, order: seq<string>, k: string)
    requires forall x :: x in order ==> x in m
    requires k in m
    ensures EntriesIn(m, order + [k]) == EntriesIn(m, order) + [m[k]]
  {
    assert (order + [k])[..|order|] == order;
  }

  /** Visiting one more entry applies one more device step. */
  lemma MergeDevicesSnoc(byId: map<string, Device>, m: map<string, Entry>, order: seq<string>, k: string, reconcile: (Device, Device) -> Device)
    requires forall x :: x in order ==> x in m
    requires k in m
    ensures MergeDevices(byId, EntriesIn(m, order + [k]), reconcile)
         == DeviceStep(MergeDevices(byId, EntriesIn(m, order), reconcile), m[k], reconcile)
  {
    EntriesInSnoc(m, order, k);
    var es := EntriesIn(m, order + [k]);
    assert es[..|es| - 1] == EntriesIn(m, order);
  }

  /** Visiting one more entry applies one more entity step. */
  lemma MergeEntitiesSnoc(byId: map<string, Entity>, d: string, m: map<string, Entry>, order: seq<string>, k: string)
    requires forall x :: x in order ==> x in m
    requires k in m
    ensures MergeEntities(byId, d, EntriesIn(m, order + [k]))
         == EntityStep(MergeEntities(byId, d, EntriesIn(m, order)), d, m[k])
  {
    EntriesInSnoc(m, order, k);
    var es := EntriesIn(m, order + [k]);
    assert es[..|es| - 1] == EntriesIn(m, order);
  }

  /** The device merge over the first `i + 1` keys of a visiting order is one step past the first `i`. */
  lemma MergeDevicesPrefix(byId: map<string, Device>, m: map<string, Entry>, order: seq<string>, i: nat, reconcile: (Device, Device) -> Device)
    requires forall x :: x in order ==> x in m
    requires i < |order|
    ensures MergeDevices(byId, EntriesIn(m, order[..i + 1]), reconcile)
         == DeviceStep(MergeDevices(byId, EntriesIn(m, order[..i]), reconcile), m[order[i]], reconcile)
  {
    assert order[..i + 1] == order[..i] + [order[i]];
    MergeDevicesSnoc(byId, m, order[..i], order[i], reconcile);
  }

  /** The entity merge over the first `i + 1` keys of a visiting order is one step past the first `i`. */
  lemma MergeEntitiesPrefix(byId: map<string, Entity>, d: string, m: map<string, Entry>, order: seq<string>, i: nat)
    requires forall x :: x in order ==> x in m
    requires i < |order|
    ensures MergeEntities(byId, d, EntriesIn(m, order[..i + 1]))
         == EntityStep(MergeEntities(byId, d, EntriesIn(m, order[..i])), d, m[order[i]])
  {
    assert order[..i + 1] == order[..i] + [order[i]];
    MergeEntitiesSnoc(byId, d, m, order[..i], order[i]);
  }

  /** The values `f` takes on the entries of `m` that pass `keep`, whatever the visiting order. */
  function MapImage(m: map<string, Entry>, keep: Entry -> bool, f: Entry -> string): set<string> {
    set k | k in m && keep(m[k]) :: f(m[k])
  }

  /** Visiting all of `m`, in any order, meets the same values as `m` itself holds. */
  lemma ImageOfEnumeration(m: map<string, Entry>, order: seq<string>, keep: Entry -> bool, f: Entry -> string)
    requires Enumerates(order, m.Keys)
    ensures Image(EntriesIn(m, order), keep, f) == MapImage(m, keep, f)
  {
    var es := EntriesIn(m, order);
    forall x | x in MapImage(m, keep, f) ensures x in Image(es, keep, f) {
      var k :| k in m && keep(m[k]) && f(m[k]) == x;
      var i :| 0 <= i < |order| && order[i] == k;
      assert es[i] == m[k];
    }
    forall x | x in Image(es, keep, f) ensures x in MapImage(m, keep, f) {
      var i :| 0 <= i < |es| && keep(es[i]) && f(es[i]) == x;
      assert order[i] in m;
    }
  }

  /** The IDs of a list of devices, in list order. */
  function IdsOfDevices(ds: seq<Device>): (ids: seq<string>)
    ensures |ids| == |ds| && forall i :: 0 <= i < |ds| ==> ids[i] == ds[i].id
  {
    if ds == [] then [] else [ds[0].id] + IdsOfDevices(ds[1..])
  }

  /** The IDs of a list of entities, in list order. */
  function IdsOfEntities(es: seq<Entity>): (ids: seq<string>)
    ensures |ids| == |es| && forall i :: 0 <= i < |es| ==> ids[i] == es[i].id
  {
    if es == [] then [] else [es[0].id] + IdsOfEntities(es[1..])
  }

  /** `out` lists the devices of `byId`, each once, ascending by ID. */
  predicate ListsDevices(out: seq<Device>, byId: map<string, Device>) {
    && StrictlySorted(IdsOfDevices(out))
    && (forall i :: 0 <= i < |out| ==> out[i].id in byId && byId[out[i].id] == out[i])
    && (forall k :: k in byId ==> k in IdsOfDevices(out))
  }

  /** `out` lists the entities of `byId`, each once, ascending by ID. */
  predicate ListsEntities(out: seq<Entity>, byId: map<string, Entity>) {
    && StrictlySorted(IdsOfEntities(out))
    && (forall i :: 0 <= i < |out| ==> out[i].id in byId && byId[out[i].id] == out[i])
    && (forall k :: k in byId ==> k in IdsOfEntities(out))
  }

  /** Each device of `ids` in `r` is the reconciler's answer for the device some keyed entry of the store `m` describes. */
  ghost predicate DevicesFromStore(r: map<string, Device>, m: map<string, Entry>, ids: set<string>, reconcile: (Device, Device) -> Device) {
    forall id :: id in ids ==>
      && id in r
      && exists e, prev :: e in m.Values && HasDeviceKey(e) && EntryDeviceId(e) == id
           && r[id] == reconcile(prev, DiscoveredDevice(e))
  }

  /** Each entity of `ids` in `r` is described by some entry of device `d` in the store `m`. */
  ghost predicate EntitiesFromStore(r: map<string, Entity>, d: string, m: map<string, Entry>, ids: set<string>) {
    forall id :: id in ids ==> id in r && exists e :: e in m.Values && Describes(r[id], d, e)
  }

  /** A step of the two lemmas below: the entry visited `i`-th is one of the store's. */
  lemma EntryOfStore(m: map<string, Entry>, order: seq<string>, i: int)
    requires forall k :: k in order ==> k in m
    requires 0 <= i < |order|
    ensures EntriesIn(m, order)[i] in m.Values
  {
    assert EntriesIn(m, order)[i] == m[order[i]];
  }

  /** The device merge over an enumeration of the store, restated over the store's entries. */
  lemma MergedDevicesFromStore(byId: map<string, Device>, m: map<string, Entry>, order: seq<string>, reconcile: (Device, Device) -> Device)
    requires forall a, b :: reconcile(a, b).id == b.id
    requires DevicesKeyed(byId)
    requires Enumerates(order, m.Keys)
    ensures DevicesFromStore(MergeDevices(byId, EntriesIn(m, order), reconcile), m, MapImage(m, HasDeviceKey, EntryDeviceId), reconcile)
  {
    var es := EntriesIn(m, order);
    var merged := MergeDevices(byId, es, reconcile);
    MergeDevicesBuiltFrom(byId, es, reconcile);
    ImageOfEnumeration(m, order, HasDeviceKey, EntryDeviceId);
    forall id | id in MapImage(m, HasDeviceKey, EntryDeviceId)
      ensures id in merged
      ensures exists e, prev :: e in m.Values && HasDeviceKey(e) && EntryDeviceId(e) == id
                && merged[id] == reconcile(prev, DiscoveredDevice(e))
    {
      var i, prev :| 0 <= i < |es| && HasDeviceKey(es[i]) && EntryDeviceId(es[i]) == id
        && merged[id] == reconcile(prev, DiscoveredDevice(es[i]));
      EntryOfStore(m, order, i);
    }
  }

  /** The entity merge over an enumeration of the store, restated over the store's entries. */
  lemma MergedEntitiesFromStore(byId: map<string, Entity>, d: string, m: map<string, Entry>, order: seq<string>)
    requires EntitiesKeyed(byId)
    requires Enumerates(order, m.Keys)
    ensures EntitiesFromStore(MergeEntities(byId, d, EntriesIn(m, order)), d, m, MapImage(m, e => EntryDeviceId(e) == d, EntryEntityId))
  {
    var es := EntriesIn(m, order);
    var merged := MergeEntities(byId, d, es);
    MergeEntitiesBuiltFrom(byId, d, es);
    ImageOfEnumeration(m, order, e => EntryDeviceId(e) == d, EntryEntityId);
    forall id | id in MapImage(m, e => EntryDeviceId(e) == d, EntryEntityId)
      ensures id in merged
      ensures exists e :: e in m.Values && Describes(merged[id], d, e)
    {
      var i :| 0 <= i < |es| && Describes(merged[id], d, es[i]);
      EntryOfStore(m, order, i);
    }
  }

  /**
   * Whatever order the store is visited in, the device list holds exactly
   * the host's device IDs plus the device ID of every entry with a device
   * key, each device under its own ID; each device an entry maps to is the
   * reconciler's answer for the device that entry describes, and every host
   * device no entry maps to comes back as the host had it.
   */
  lemma DevicesListIds(current: seq<Device>, m: map<string, Entry>, order: seq<string>, reconcile: (Device, Device) -> Device)
    requires forall a, b :: reconcile(a, b).id == b.id
    requires Enumerates(order, m.Keys)
    ensures var byId := DevicesById(current);
      var merged := MergeDevices(byId, EntriesIn(m, order), reconcile);
      var found := MapImage(m, HasDeviceKey, EntryDeviceId);
      && merged.Keys == (set i | 0 <= i < |current| :: current[i].id) + found
      && DevicesKeyed(merged)
      && DevicesFromStore(merged, m, found, reconcile)
      && forall id :: id in byId && id !in found ==> merged[id] == byId[id]
  {
    MergeDevicesKeys(DevicesById(current), EntriesIn(m, order), reconcile);
    ImageOfEnumeration(m, order, HasDeviceKey, EntryDeviceId);
    MergedDevicesFromStore(DevicesById(current), m, order, reconcile);
  }

  /**
   * Whatever order the store is visited in, the entity list of device `d`
   * holds exactly the host's entity IDs plus the entity ID of every entry of
   * `d`; each entity an entry produced belongs to `d`, has a known domain and
   * keeps the host's Data, and is described by an entry of `d` in the store
   * (its ID, the mapped domain, the display name); every other host entity
   * comes back unchanged.
   */
  lemma EntitiesListIds(current: seq<Entity>, d: string, m: map<string, Entry>, order: seq<string>)
    requires Enumerates(order, m.Keys)
    ensures var byId := EntitiesById(current);
      var merged := MergeEntities(byId, d, EntriesIn(m, order));
      var found := MapImage(m, e => EntryDeviceId(e) == d, EntryEntityId);
      && merged.Keys == (set i | 0 <= i < |current| :: current[i].id) + found
      && EntitiesKeyed(merged)
      && FromEntries(byId, merged, d, found)
      && EntitiesFromStore(merged, d, m, found)
      && forall id :: id in byId && id !in found ==> merged[id] == byId[id]
  {
    MergeEntitiesKeys(EntitiesById(current), d, EntriesIn(m, order));
    MergeEntitiesFromEntries(EntitiesById(current), d, EntriesIn(m, order));
    ImageOfEnumeration(m, order, e => EntryDeviceId(e) == d, EntryEntityId);
    MergedEntitiesFromStore(EntitiesById(current), d, m, order);
  }
}
