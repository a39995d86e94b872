/**
 * The plugin's own discovery parser (discovery.go): the topic guard with a
 * minimum of four levels, the scalar-to-text rendering of `payload_on` and
 * `payload_off`, and the extraction of the state key from a Home Assistant
 * `value_template`.
 */
module Discovery {
  import opened Wrappers
  import opened GoStrings
  import opened Json
  import opened HaPayload

  /** Why a discovery message was refused. */
  datatype ParseError = InvalidTopic | DecodeError | MissingUniqueId

  /** A parsed message: the payload and the entity type read from the topic. */
  datatype Parsed = Parsed(data: Payload, entityType: string)

  const MinLevels: nat := 4

  /**
   * parseDiscovery: the topic guard first, then the body, then the unique ID.
   * The result names the first check that fails.
   */
  function ParseDiscovery(topic: string, body: Decoded): (r: Result<Parsed, ParseError>)
    ensures r.Ok? <==> IsConfigTopic(topic, MinLevels) && body.Decoded? && body.data.uniqueId != ""
    ensures r.Ok? ==> r.value.data == body.data && r.value.data.uniqueId != ""
    ensures r.Ok? ==> |Levels(topic)| >= 4 && r.value.entityType == Levels(topic)[1]
    ensures r == Err(InvalidTopic) <==> !IsConfigTopic(topic, MinLevels)
    ensures r == Err(DecodeError) <==> IsConfigTopic(topic, MinLevels) && body.Malformed?
  {
    var parts := Levels(topic);
    if |parts| < MinLevels || parts[|parts| - 1] != "config" then Err(InvalidTopic)
    else
      match body
      case Malformed => Err(DecodeError)
      case Decoded(data) =>
        if data.uniqueId == "" then Err(MissingUniqueId)
        else Ok(Parsed(data, parts[1]))
  }

  /**
   * payloadToString: a string is itself, a bool is "true"/"false", a number
   * is its decimal text, and anything else (null, objects) is empty.
   */
  function PayloadToString(v: Json): string {
    match v
    case JString(s) => s
    case JBool(b) => if b then "true" else "false"
    case JNum(n) => IntToDecimal(n)
    case _ => ""
  }

  /** The text of a number reads back as the same number. */
  lemma PayloadNumberRoundTrip(n: int)
    ensures ParseNumber(PayloadToString(JNum(n))) == Some(n)
  {
    ParseNumberDecimal(n);
  }

  /** The empty text comes only from null, an object, or the empty string. */
  lemma PayloadEmpty(v: Json)
    ensures PayloadToString(v) == "" <==> v.JNull? || v.JObj? || v == JString("")
  {
  }

  /** A bool renders as one of the two words and never as empty text. */
  lemma PayloadBool(b: bool)
    ensures PayloadToString(JBool(b)) == (if b then "true" else "false")
    ensures PayloadToString(JBool(b)) != PayloadToString(JBool(!b))
  {
  }

  // ---------------------------------------------------------------------------
  // extractValueKey
  // ---------------------------------------------------------------------------

  const Marker: string := "value_json."

  /** The characters a key path may hold: ASCII letters, digits, '.' and '_'. */
  predicate IsKeyChar(c: char) {
    ('a' <= c <= 'z') || ('A' <= c <= 'Z') || ('0' <= c <= '9') || c == '.' || c == '_'
  }

  /** The longest prefix of `s` made of key characters. */
  function KeyRun(s: string): (r: string)
    ensures |r| <= |s| && r == s[..|r|]
    ensures forall i :: 0 <= i < |r| ==> IsKeyChar(r[i])
    ensures |r| < |s| ==> !IsKeyChar(s[|r|])
  {
    if s != [] && IsKeyChar(s[0]) then [s[0]] + KeyRun(s[1..]) else []
  }

  /**
   * The bracket-to-dot rewriting: spaces go, every quoted subscript becomes a
   * dotted step, and closing brackets after a quote go.
   */
  function NormalizeTemplate(template: string): string {
    var t := ReplaceAll(template, " ", "");
    var t := ReplaceAll(t, "']['", ".");
    var t := ReplaceAll(t, "'][\"", ".");
    var t := ReplaceAll(t, "\"]['", ".");
    var t := ReplaceAll(t, "\"][\"", ".");
    var t := ReplaceAll(t, "['", ".");
    var t := ReplaceAll(t, "[\"", ".");
    var t := ReplaceAll(t, "']", "");
    ReplaceAll(t, "\"]", "")
  }

  /**
   * What extractValueKey returns: nothing for an empty template or one whose
   * normal form lacks the marker; otherwise the longest run of key characters
   * right after the first marker.
   */
  function ValueKey(template: string): (r: string)
    ensures forall i :: 0 <= i < |r| ==> IsKeyChar(r[i])
    ensures template == "" ==> r == ""
    ensures !Contains(NormalizeTemplate(template), Marker) ==> r == ""
    ensures template != "" && Contains(NormalizeTemplate(template), Marker) ==>
              var t := NormalizeTemplate(template);
              var start := Find(t, Marker) + |Marker|;
              start + |r| <= |t| && r == t[start..start + |r|]
              && (start + |r| < |t| ==> !IsKeyChar(t[start + |r|]))
  {
    if template == "" then ""
    else
      var t := NormalizeTemplate(template);
      var i := Find(t, Marker);
      if i == -1 then ""
      else
        var r := KeyRun(t[i + |Marker|..]);
        assert t[i + |Marker|..][..|r|] == t[i + |Marker|..i + |Marker| + |r|];
        r
  }

  /** A prefix of key characters that cannot be extended is the run. */
  lemma {:induction false} KeyRunIs(s: string, n: nat)
    requires n <= |s|
    requires forall i :: 0 <= i < n ==> IsKeyChar(s[i])
    requires n < |s| ==> !IsKeyChar(s[n])
    ensures KeyRun(s) == s[..n]
  {
    if n > 0 {
      KeyRunIs(s[1..], n - 1);
      assert s[..n] == [s[0]] + s[1..][..n - 1];
    }
  }

  /** The scan that extractValueKey runs after the marker, from `start` on. */
  method ScanKey(t: string, start: nat) returns (end: nat)
    requires start <= |t|
    ensures start <= end <= |t| && t[start..end] == KeyRun(t[start..])
  {
    end := start;
    while end < |t|
      invariant start <= end <= |t|
      invariant forall i :: start <= i < end ==> IsKeyChar(t[i])
    {
      if !IsKeyChar(t[end]) {
        break;
      }
      end := end + 1;
    }
    KeyRunIs(t[start..], end - start);
    assert t[start..][..end - start] == t[start..end];
  }

  /** extractValueKey, step by step as the plugin does it. */
  method ExtractValueKey(template: string) returns (key: string)
    ensures key == ValueKey(template)
  {
    if template == "" {
      return "";
    }
    var t := ReplaceAll(template, " ", "");
    t := ReplaceAll(t, "']['", ".");
    t := ReplaceAll(t, "'][\"", ".");
    t := ReplaceAll(t, "\"]['", ".");
    t := ReplaceAll(t, "\"][\"", ".");
    t := ReplaceAll(t, "['", ".");
    t := ReplaceAll(t, "[\"", ".");
    t := ReplaceAll(t, "']", "");
    t := ReplaceAll(t, "\"]", "");
    assert t == NormalizeTemplate(template);
    key := "";
    if Contains(t, Marker) {
      var start := Find(t, Marker) + |Marker|;
      var end := ScanKey(t, start);
      if end > start {
        key := t[start..end];
      }
    }
  }

  /** A step of MarkerAfterBraces and BracketTemplateKey: the pieces of a three-part concatenation, recovered by slicing. */
  lemma Middle(a: string, b: string, c: string)
    ensures (a + b + c)[|a|..|a| + |b|] == b && (a + b + c)[|a| + |b|..] == c
  {
  }

  /** A step of MarkerAfterBraces and BracketTemplateKey: the template text split at the marker. */
  lemma MarkerSpelled(k: string)
    ensures "{{value_json." + k + "}}" == "{{" + Marker + (k + "}}")
  {
  }

  /** Text made of key characters only. */
  predicate IsKeyText(k: string) {
    forall i :: 0 <= i < |k| ==> IsKeyChar(k[i])
  }

  /** Key text holds none of the characters the normalising rewrites look for. */
  lemma KeyTextPlain(k: string)
    requires IsKeyText(k)
    ensures ' ' !in k && '\'' !in k && '"' !in k && '[' !in k
  {
  }

  // The passes of NormalizeTemplate over `{{ value_json['k'] }}`, one lemma each.

  /** A step of StripSpaces: the space before the closing braces goes. */
  lemma StripSpacesTail(k: string)
    requires IsKeyText(k)
    ensures ReplaceAll("value_json['" + k + "'] }}", " ", "") == "value_json['" + k + "']}}"
  {
    KeyTextPlain(k);
    var y := "value_json['" + k + "']";
    assert "value_json['" + k + "'] }}" == y + (" " + "}}");
    ReplaceSkip(y, " " + "}}", " ", "");
    ReplaceHit(" ", "}}", "");
    ReplaceAbsent("}}", " ", "", ' ');
  }

  /** A step of BracketTemplateKey: removing the spaces. */
  lemma StripSpaces(k: string)
    requires IsKeyText(k)
    ensures ReplaceAll("{{ value_json['" + k + "'] }}", " ", "") == "{{value_json['" + k + "']}}"
  {
    var x := "value_json['" + k + "'] }}";
    StripSpacesTail(k);
    ReplaceSkip("{{", " " + x, " ", "");
    ReplaceHit(" ", x, "");
    SpacedTemplateSplit(k);
    PlainTemplateJoin(k);
  }

  /** A step of StripSpaces: the spaced template split into its literal parts. */
  lemma SpacedTemplateSplit(k: string)
    ensures "{{ value_json['" + k + "'] }}" == "{{" + (" " + ("value_json['" + k + "'] }}"))
  {
    assert "{{ value_json['" == "{{" + " " + "value_json['";
  }

  /** A step of StripSpaces: the same literal parts joined without spaces. */
  lemma PlainTemplateJoin(k: string)
    ensures "{{" + ("value_json['" + k + "']}}") == "{{value_json['" + k + "']}}"
  {
  }

  /** A step of BracketTemplateKey: the four chained-subscript rewrites find nothing. */
  lemma NoDoubleSubscript(k: string)
    requires IsKeyText(k)
    ensures var s1 := "{{value_json['" + k + "']}}";
            ReplaceAll(s1, "']['", ".") == s1 && ReplaceAll(s1, "'][\"", ".") == s1
            && ReplaceAll(s1, "\"]['", ".") == s1 && ReplaceAll(s1, "\"][\"", ".") == s1
  {
    KeyTextPlain(k);
    var s1 := "{{value_json['" + k + "']}}";
    assert ReplaceAll(s1, "']['", ".") == s1 by {
      var z := "'" + k + "']}}";
      assert s1 == "{{value_json[" + z;
      ReplaceSkip("{{value_json[", z, "']['", ".");
      ReplaceAbsent(z, "']['", ".", '[');
    }
    ReplaceAbsent(s1, "'][\"", ".", '"');
    ReplaceAbsent(s1, "\"]['", ".", '"');
    ReplaceAbsent(s1, "\"][\"", ".", '"');
  }

  /** A step of BracketTemplateKey: the opening subscript becomes a dot. */
  lemma OpenSubscript(k: string)
    requires IsKeyText(k)
    ensures var s6 := "{{value_json." + k + "']}}";
            ReplaceAll("{{value_json['" + k + "']}}", "['", ".") == s6
            && ReplaceAll(s6, "[\"", ".") == s6
  {
    KeyTextPlain(k);
    var w := k + "']}}";
    assert ReplaceAll("['" + w, "['", ".") == "." + w by {
      ReplaceHit("['", w, ".");
      ReplaceAbsent(w, "['", ".", '[');
    }
    assert ReplaceAll("{{value_json" + ("['" + w), "['", ".") == "{{value_json" + ("." + w) by {
      ReplaceSkip("{{value_json", "['" + w, "['", ".");
    }
    SubscriptSplit(k);
    ReplaceAbsent("{{value_json." + k + "']}}", "[\"", ".", '"');
  }

  /** A step of OpenSubscript: the subscript template split at its opening bracket. */
  lemma SubscriptSplit(k: string)
    ensures "{{value_json['" + k + "']}}" == "{{value_json" + ("['" + (k + "']}}"))
    ensures "{{value_json" + ("." + (k + "']}}")) == "{{value_json." + k + "']}}"
  {
  }

  /** A step of BracketTemplateKey: the closing subscript is dropped. */
  lemma CloseSubscript(k: string)
    requires IsKeyText(k)
    ensures var s8 := "{{value_json." + k + "}}";
            ReplaceAll("{{value_json." + k + "']}}", "']", "") == s8
            && ReplaceAll(s8, "\"]", "") == s8
  {
    KeyTextPlain(k);
    var v := "{{value_json." + k;
    assert ReplaceAll("']" + "}}", "']", "") == "}}" by {
      ReplaceHit("']", "}}", "");
      ReplaceAbsent("}}", "']", "", '\'');
    }
    assert ReplaceAll(v + ("']" + "}}"), "']", "") == v + ReplaceAll("']" + "}}", "']", "") by {
      ReplaceSkip(v, "']" + "}}", "']", "");
    }
    assert "{{value_json." + k + "']}}" == v + ("']" + "}}");
    ReplaceAbsent("{{value_json." + k + "}}", "\"]", "", '"');
  }

  /** A step of BracketTemplateKey: the marker first occurs right after the braces. */
  lemma MarkerAfterBraces(k: string)
    ensures Find("{{value_json." + k + "}}", Marker) == 2
  {
    var s8 := "{{value_json." + k + "}}";
    MarkerSpelled(k);
    Middle("{{", Marker, k + "}}");
    assert OccursAt(s8, Marker, 2);
    assert !OccursAt(s8, Marker, 0) by {
      assert s8[0..|Marker|][0] == s8[0] == '{';
    }
    assert !OccursAt(s8, Marker, 1) by {
      assert s8[1..1 + |Marker|][0] == s8[1] == '{';
    }
  }

  /**
   * The bracket subscript form `{{ value_json['key'] }}` yields the bare key,
   * for every key made of key characters (for instance `state`).
   */
  lemma BracketTemplateKey(k: string)
    requires IsKeyText(k)
    ensures ValueKey("{{ value_json['" + k + "'] }}") == k
  {
    var s0 := "{{ value_json['" + k + "'] }}";
    StripSpaces(k);
    NoDoubleSubscript(k);
    OpenSubscript(k);
    CloseSubscript(k);
    var s8 := "{{value_json." + k + "}}";
    assert NormalizeTemplate(s0) == s8;
    MarkerAfterBraces(k);
    MarkerSpelled(k);
    Middle("{{", Marker, k + "}}");
    KeyRunIs(k + "}}", |k|);
    assert (k + "}}")[..|k|] == k;
  }

  /** The template of a light's discovery message yields `state`. */
  lemma StateTemplateExample()
    ensures ValueKey("{{ value_json['" + "state" + "'] }}") == "state"
  {
    BracketTemplateKey("state");
  }

  /** A bridge topic (three levels) is not a discovery topic. */
  lemma BridgeTopicRejected(body: Decoded)
    ensures ParseDiscovery(Join(["zigbee2mqtt", "bridge", "devices"], '/'), body) == Err(InvalidTopic)
  {
    JoinSplit(["zigbee2mqtt", "bridge", "devices"], '/');
  }

  /** A five-level light topic parses, and the type is the second level. */
  lemma LightTopicParsed(data: Payload)
    requires data.uniqueId == "abc123"
    ensures ParseDiscovery(Join(["homeassistant", "light", "node", "object", "config"], '/'), Decoded(data))
         == Ok(Parsed(data, "light"))
  {
    var parts := ["homeassistant", "light", "node", "object", "config"];
    JoinSplit(parts, '/');
    assert Levels(Join(parts, '/')) == parts;
    assert IsConfigTopic(Join(parts, '/'), MinLevels);
  }
}
