/**
 * The plugin's settings as config.go reads them from the environment: each
 * setting takes the first of its variables that is not blank, canonical
 * `ZIGBEE2MQTT_*` names before the legacy ones, and the two topics fall back
 * to defaults.
 */
module Config {
  import opened GoStrings

  /** z2mConfig. */
  datatype Z2mConfig = Z2mConfig(
    mqttUrl: string,
    discoveryTopic: string,
    baseTopic: string,
    username: string,
    password: string)

  /** `os.Getenv`: an unset variable reads as "". */
  function Getenv(env: map<string, string>, key: string): string {
    if key in env then env[key] else ""
  }

  /** Whether a variable holds something other than white space. */
  predicate IsSet(env: map<string, string>, key: string) {
    TrimSpace(Getenv(env, key)) != ""
  }

  /** firstNonEmpty: the untrimmed value of the first variable that is set, or "". */
  function FirstNonEmpty(env: map<string, string>, keys: seq<string>): string {
    if keys == [] then ""
    else if IsSet(env, keys[0]) then Getenv(env, keys[0])
    else FirstNonEmpty(env, keys[1..])
  }

  /**
   * FirstNonEmpty is "" exactly when no listed variable is set; otherwise it
   * is the value of a set variable that no earlier one precedes.
   */
  lemma {:induction false} FirstNonEmptyPicks(env: map<string, string>, keys: seq<string>)
    ensures FirstNonEmpty(env, keys) == "" <==> forall i :: 0 <= i < |keys| ==> !IsSet(env, keys[i])
    ensures FirstNonEmpty(env, keys) != "" ==>
      exists i :: 0 <= i < |keys| && IsSet(env, keys[i]) && FirstNonEmpty(env, keys) == Getenv(env, keys[i])
        && forall j :: 0 <= j < i ==> !IsSet(env, keys[j])
  {
    if keys != [] {
      var tail := keys[1..];
      if IsSet(env, keys[0]) {
        assert Getenv(env, keys[0]) != "";
      } else {
        FirstNonEmptyPicks(env, tail);
        if FirstNonEmpty(env, tail) != "" {
          var i :| 0 <= i < |tail| && IsSet(env, tail[i]) && FirstNonEmpty(env, tail) == Getenv(env, tail[i])
            && forall j :: 0 <= j < i ==> !IsSet(env, tail[j]);
          assert keys[i + 1] == tail[i];
          forall j | 0 <= j < i + 1 ensures !IsSet(env, keys[j]) {
            if j > 0 { assert keys[j] == tail[j - 1]; }
          }
        } else {
          forall i | 0 <= i < |keys| ensures !IsSet(env, keys[i]) {
            if i > 0 { assert keys[i] == tail[i - 1]; }
          }
        }
      }
    }
  }

  /** A blank result means every variable is blank; a set one makes the result non-blank. */
  lemma FirstNonEmptyBlank(env: map<string, string>, keys: seq<string>)
    ensures TrimSpace(FirstNonEmpty(env, keys)) == "" <==> forall i :: 0 <= i < |keys| ==> !IsSet(env, keys[i])
  {
    FirstNonEmptyPicks(env, keys);
    if FirstNonEmpty(env, keys) != "" {
      var i :| 0 <= i < |keys| && IsSet(env, keys[i]) && FirstNonEmpty(env, keys) == Getenv(env, keys[i]);
    } else {
      assert TrimSpace("") == "";
    }
  }

  const MqttUrlKeys: seq<string> := ["ZIGBEE2MQTT_MQTT_URL", "Z2M_MQTT_BROKER_URL", "MQTT_URL"]
  const DiscoveryTopicKeys: seq<string> := ["ZIGBEE2MQTT_DISCOVERY_TOPIC", "Z2M_DISCOVERY_TOPIC", "MQTT_DISCOVERY_TOPIC"]
  const BaseTopicKeys: seq<string> := ["ZIGBEE2MQTT_BASE_TOPIC", "Z2M_BASE_TOPIC"]
  const UsernameKeys: seq<string> := ["ZIGBEE2MQTT_USERNAME", "Z2M_USERNAME"]
  const PasswordKeys: seq<string> := ["ZIGBEE2MQTT_PASSWORD", "Z2M_PASSWORD"]

  const DefaultDiscoveryTopic: string := "slidebolt/discovery/#"
  const DefaultBaseTopic: string := "zigbee2mqtt"

  /**
   * loadZ2MConfigFromEnv: the URL and the topics are trimmed, the
   * credentials are taken as they are, and a blank topic is replaced by its
   * default, so neither topic is ever empty.
   */
  method LoadConfig(env: map<string, string>) returns (cfg: Z2mConfig)
    ensures cfg.mqttUrl == TrimSpace(FirstNonEmpty(env, MqttUrlKeys))
    ensures var t := TrimSpace(FirstNonEmpty(env, DiscoveryTopicKeys));
      cfg.discoveryTopic == if t == "" then DefaultDiscoveryTopic else t
    ensures var t := TrimSpace(FirstNonEmpty(env, BaseTopicKeys));
      cfg.baseTopic == if t == "" then DefaultBaseTopic else t
    ensures cfg.username == FirstNonEmpty(env, UsernameKeys)
    ensures cfg.password == FirstNonEmpty(env, PasswordKeys)
    ensures cfg.discoveryTopic != "" && cfg.baseTopic != ""
  {
    cfg := Z2mConfig(
      TrimSpace(FirstNonEmpty(env, MqttUrlKeys)),
      TrimSpace(FirstNonEmpty(env, DiscoveryTopicKeys)),
      TrimSpace(FirstNonEmpty(env, BaseTopicKeys)),
      FirstNonEmpty(env, UsernameKeys),
      FirstNonEmpty(env, PasswordKeys));
    if cfg.discoveryTopic == "" {
      cfg := cfg.(discoveryTopic := DefaultDiscoveryTopic);
    }
    if cfg.baseTopic == "" {
      cfg := cfg.(baseTopic := DefaultBaseTopic);
    }
  }

  /** A set canonical variable wins over every legacy one. */
  lemma CanonicalFirst(env: map<string, string>, keys: seq<string>)
    requires keys != [] && IsSet(env, keys[0])
    ensures FirstNonEmpty(env, keys) == Getenv(env, keys[0])
  {
  }

  /** With the canonical URL variables blank, MQTT_URL decides. */
  lemma UrlFallback(env: map<string, string>)
    requires !IsSet(env, "ZIGBEE2MQTT_MQTT_URL") && !IsSet(env, "Z2M_MQTT_BROKER_URL")
    ensures FirstNonEmpty(env, MqttUrlKeys) == FirstNonEmpty(env, ["MQTT_URL"])
  {
    assert MqttUrlKeys[1..] == ["Z2M_MQTT_BROKER_URL", "MQTT_URL"];
    assert MqttUrlKeys[1..][1..] == ["MQTT_URL"];
  }

  /** With the canonical discovery-topic variables blank, MQTT_DISCOVERY_TOPIC decides. */
  lemma DiscoveryFallback(env: map<string, string>)
    requires !IsSet(env, "ZIGBEE2MQTT_DISCOVERY_TOPIC") && !IsSet(env, "Z2M_DISCOVERY_TOPIC")
    ensures FirstNonEmpty(env, DiscoveryTopicKeys) == FirstNonEmpty(env, ["MQTT_DISCOVERY_TOPIC"])
  {
    assert DiscoveryTopicKeys[1..] == ["Z2M_DISCOVERY_TOPIC", "MQTT_DISCOVERY_TOPIC"];
    assert DiscoveryTopicKeys[1..][1..] == ["MQTT_DISCOVERY_TOPIC"];
  }

  /** With ZIGBEE2MQTT_BASE_TOPIC blank, Z2M_BASE_TOPIC decides. */
  lemma BaseFallback(env: map<string, string>)
    requires !IsSet(env, "ZIGBEE2MQTT_BASE_TOPIC")
    ensures FirstNonEmpty(env, BaseTopicKeys) == FirstNonEmpty(env, ["Z2M_BASE_TOPIC"])
  {
    assert BaseTopicKeys[1..] == ["Z2M_BASE_TOPIC"];
  }

  /** An environment holding only the canonical variables. */
  const CanonicalEnv: map<string, string> := map[
    "ZIGBEE2MQTT_MQTT_URL" := "tcp://broker:1883",
    "ZIGBEE2MQTT_DISCOVERY_TOPIC" := "homeassistant/light/#",
    "ZIGBEE2MQTT_BASE_TOPIC" := "zigbee2mqtt",
    "ZIGBEE2MQTT_USERNAME" := "user",
    "ZIGBEE2MQTT_PASSWORD" := "pass"]

  /** An environment holding only legacy variables. */
  const LegacyEnv: map<string, string> := map[
    "MQTT_URL" := "tcp://legacy:1883",
    "MQTT_DISCOVERY_TOPIC" := "homeassistant/#",
    "Z2M_BASE_TOPIC" := "z2m"]

  /** The setting read from a variable that holds a trimmed value. */
  lemma FirstIsSet(env: map<string, string>, keys: seq<string>, v: string)
    requires keys != [] && Getenv(env, keys[0]) == v
    requires |v| >= 1 && !IsSpace(v[0]) && !IsSpace(v[|v| - 1])
    ensures FirstNonEmpty(env, keys) == v && TrimSpace(v) == v
  {
    TrimSpaceKeeps(v);
  }

  lemma CanonicalUrl()
    ensures FirstNonEmpty(CanonicalEnv, MqttUrlKeys) == "tcp://broker:1883" == TrimSpace("tcp://broker:1883")
  {
    FirstIsSet(CanonicalEnv, MqttUrlKeys, "tcp://broker:1883");
  }

  lemma CanonicalDiscovery()
    ensures FirstNonEmpty(CanonicalEnv, DiscoveryTopicKeys) == "homeassistant/light/#" == TrimSpace("homeassistant/light/#")
  {
    FirstIsSet(CanonicalEnv, DiscoveryTopicKeys, "homeassistant/light/#");
  }

  lemma CanonicalBase()
    ensures FirstNonEmpty(CanonicalEnv, BaseTopicKeys) == "zigbee2mqtt" == TrimSpace("zigbee2mqtt")
  {
    FirstIsSet(CanonicalEnv, BaseTopicKeys, "zigbee2mqtt");
  }

  lemma CanonicalCredentials()
    ensures FirstNonEmpty(CanonicalEnv, UsernameKeys) == "user"
    ensures FirstNonEmpty(CanonicalEnv, PasswordKeys) == "pass"
  {
    FirstIsSet(CanonicalEnv, UsernameKeys, "user");
    FirstIsSet(CanonicalEnv, PasswordKeys, "pass");
  }

  /** The canonical variables alone decide every setting. */
  method CanonicalExample() returns (cfg: Z2mConfig)
    ensures cfg == Z2mConfig("tcp://broker:1883", "homeassistant/light/#", "zigbee2mqtt", "user", "pass")
  {
    CanonicalUrl();
    CanonicalDiscovery();
    CanonicalBase();
    CanonicalCredentials();
    cfg := LoadConfig(CanonicalEnv);
  }

  /** A variable the environment does not hold is not set. */
  lemma Unset(env: map<string, string>, key: string)
    requires key !in env
    ensures !IsSet(env, key)
  {
    assert TrimSpace("") == "";
  }

  lemma LegacyUrl()
    ensures FirstNonEmpty(LegacyEnv, MqttUrlKeys) == "tcp://legacy:1883" == TrimSpace("tcp://legacy:1883")
  {
    Unset(LegacyEnv, "ZIGBEE2MQTT_MQTT_URL");
    Unset(LegacyEnv, "Z2M_MQTT_BROKER_URL");
    UrlFallback(LegacyEnv);
    FirstIsSet(LegacyEnv, ["MQTT_URL"], "tcp://legacy:1883");
  }

  lemma LegacyDiscovery()
    ensures FirstNonEmpty(LegacyEnv, DiscoveryTopicKeys) == "homeassistant/#" == TrimSpace("homeassistant/#")
  {
    Unset(LegacyEnv, "ZIGBEE2MQTT_DISCOVERY_TOPIC");
    Unset(LegacyEnv, "Z2M_DISCOVERY_TOPIC");
    DiscoveryFallback(LegacyEnv);
    FirstIsSet(LegacyEnv, ["MQTT_DISCOVERY_TOPIC"], "homeassistant/#");
  }

  lemma LegacyBase()
    ensures FirstNonEmpty(LegacyEnv, BaseTopicKeys) == "z2m" == TrimSpace("z2m")
  {
    Unset(LegacyEnv, "ZIGBEE2MQTT_BASE_TOPIC");
    BaseFallback(LegacyEnv);
    FirstIsSet(LegacyEnv, ["Z2M_BASE_TOPIC"], "z2m");
  }

  lemma LegacyCredentials()
    ensures FirstNonEmpty(LegacyEnv, UsernameKeys) == ""
    ensures FirstNonEmpty(LegacyEnv, PasswordKeys) == ""
  {
    Unset(LegacyEnv, "ZIGBEE2MQTT_USERNAME");
    Unset(LegacyEnv, "Z2M_USERNAME");
    Unset(LegacyEnv, "ZIGBEE2MQTT_PASSWORD");
    Unset(LegacyEnv, "Z2M_PASSWORD");
    FirstNonEmptyPicks(LegacyEnv, UsernameKeys);
    FirstNonEmptyPicks(LegacyEnv, PasswordKeys);
  }

  /** With only legacy variables set, they are used, and the credentials stay empty. */
  method LegacyExample() returns (cfg: Z2mConfig)
    ensures cfg == Z2mConfig("tcp://legacy:1883", "homeassistant/#", "z2m", "", "")
  {
    LegacyUrl();
    LegacyDiscovery();
    LegacyBase();
    LegacyCredentials();
    cfg := LoadConfig(LegacyEnv);
  }
}
