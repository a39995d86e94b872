/**
 * The identifier helpers of plugin.go: the canonical form of free text
 * (sanitizeID), the host-side device and entity IDs built from it, the
 * mapping of Home Assistant components to entity domains, and the device key
 * taken from a discovery payload.
 */
module PluginIds {
  import opened GoStrings
  import opened HaPayload

  // ---------------------------------------------------------------------------
  // The steps of sanitizeID
  // ---------------------------------------------------------------------------

  /** The characters sanitizeID keeps. */
  predicate IsLowerAlnum(c: char) {
    ('a' <= c <= 'z') || ('0' <= c <= '9')
  }

  /** The kept characters of `s`, in order. */
  function Alnums(s: string): (r: string)
    ensures forall i :: 0 <= i < |r| ==> IsLowerAlnum(r[i])
  {
    if s == [] then []
    else if IsLowerAlnum(s[0]) then [s[0]] + Alnums(s[1..])
    else Alnums(s[1..])
  }

  lemma {:induction false} AlnumsAppend(a: string, b: string)
    ensures Alnums(a + b) == Alnums(a) + Alnums(b)
  {
    if a == [] {
      assert a + b == b;
    } else {
      assert (a + b)[1..] == a[1..] + b;
      AlnumsAppend(a[1..], b);
    }
  }

  /** The byte loop: every character that is not kept becomes a dash. */
  function DashMap(t: string): (r: string)
    ensures |r| == |t|
  {
    if t == [] then [] else [if IsLowerAlnum(t[0]) then t[0] else '-'] + DashMap(t[1..])
  }

  /** DashMap keeps each kept character in place and puts a dash in place of every other one. */
  lemma {:induction false} DashMapAt(t: string)
    ensures forall i :: 0 <= i < |t| ==> DashMap(t)[i] == (if IsLowerAlnum(t[i]) then t[i] else '-')
  {
    if t != [] {
      DashMapAt(t[1..]);
    }
  }

  /** Text over the output alphabet: kept characters and dashes. */
  predicate OverIdAlphabet(s: string) {
    forall i :: 0 <= i < |s| ==> IsLowerAlnum(s[i]) || s[i] == '-'
  }

  /** No two dashes side by side. */
  predicate NoDoubleDash(s: string) {
    forall i, j :: 0 <= i < |s| && 0 <= j < |s| && j == i + 1 ==> !(s[i] == '-' && s[j] == '-')
  }

  lemma {:induction false} AlnumsDashMap(t: string)
    ensures Alnums(DashMap(t)) == Alnums(t)
  {
    if t != [] {
      AlnumsDashMap(t[1..]);
      assert DashMap(t)[1..] == DashMap(t[1..]);
    }
  }

  /** strings.Trim(s, "-"), the leading half. */
  function TrimDashLeft(s: string): (r: string)
    ensures |r| <= |s|
    ensures forall i :: 0 <= i < |r| ==> r[i] == s[|s| - |r| + i]
    ensures r != [] ==> r[0] != '-'
    ensures Alnums(r) == Alnums(s)
  {
    if s != [] && s[0] == '-' then TrimDashLeft(s[1..]) else s
  }

  /** strings.Trim(s, "-"), the trailing half. */
  function TrimDashRight(s: string): (r: string)
    ensures |r| <= |s|
    ensures forall i :: 0 <= i < |r| ==> r[i] == s[i]
    ensures r != [] ==> r[|r| - 1] != '-'
    ensures Alnums(r) == Alnums(s)
  {
    if s != [] && s[|s| - 1] == '-' then
      var r := TrimDashRight(s[..|s| - 1]);
      assert s == s[..|s| - 1] + ['-'];
      AlnumsAppend(s[..|s| - 1], ['-']);
      r
    else s
  }

  /** strings.Trim(s, "-"): no dash at either end, and every kept character stays. */
  function TrimDashes(s: string): (r: string)
    ensures r != [] ==> r[0] != '-' && r[|r| - 1] != '-'
    ensures Alnums(r) == Alnums(s)
    ensures OverIdAlphabet(s) ==> OverIdAlphabet(r)
  {
    var l := TrimDashLeft(s);
    var r := TrimDashRight(l);
    assert r != [] ==> r[0] == l[0];
    assert forall i :: 0 <= i < |r| ==> r[i] == s[|s| - |l| + i];
    r
  }

  /**
   * What the `for strings.Contains(out, "--")` loop computes: every run of
   * dashes shrunk to one dash.
   */
  function Collapse(s: string): string
  {
    if |s| < 2 then s
    else if s[0] == '-' && s[1] == '-' then Collapse(s[1..])
    else [s[0]] + Collapse(s[1..])
  }

  /**
   * Collapsing keeps the first and the last character, the alphabet and
   * every kept character, and leaves no double dash.
   */
  lemma {:induction false} CollapseShape(s: string)
    ensures |Collapse(s)| <= |s|
    ensures s != [] ==> Collapse(s) != [] && Collapse(s)[0] == s[0]
                        && Collapse(s)[|Collapse(s)| - 1] == s[|s| - 1]
    ensures NoDoubleDash(Collapse(s))
    ensures OverIdAlphabet(s) ==> OverIdAlphabet(Collapse(s))
    ensures Alnums(Collapse(s)) == Alnums(s)
  {
    if |s| >= 2 {
      CollapseShape(s[1..]);
      if !(s[0] == '-' && s[1] == '-') {
        var rest := Collapse(s[1..]);
        assert ([s[0]] + rest)[1..] == rest;
      }
    }
  }

  /** Text without a double dash is already collapsed. */
  lemma {:induction false} CollapseFixed(s: string)
    requires NoDoubleDash(s)
    ensures Collapse(s) == s
  {
    if |s| >= 2 {
      assert !(s[0] == '-' && s[1] == '-');
      CollapseFixed(s[1..]);
      assert s == [s[0]] + s[1..];
    }
  }

  lemma CollapseKeepFirst(c: char, y: string)
    requires c != '-'
    ensures Collapse([c] + y) == [c] + Collapse(y)
  {
    assert ([c] + y)[1..] == y;
  }

  lemma CollapseTwoDashes(y: string)
    ensures Collapse("--" + y) == Collapse("-" + y)
  {
    assert ("--" + y)[1..] == "-" + y;
  }

  /** A pass over text that starts with a double dash. */
  lemma CollapseReplaceHit(t: string)
    requires Collapse(ReplaceAll(t, "--", "-")) == Collapse(t)
    requires Collapse("-" + ReplaceAll(t, "--", "-")) == Collapse("-" + t)
    ensures Collapse(ReplaceAll("--" + t, "--", "-")) == Collapse("--" + t)
    ensures Collapse("-" + ReplaceAll("--" + t, "--", "-")) == Collapse("-" + ("--" + t))
  {
    var rt := ReplaceAll(t, "--", "-");
    ReplaceHit("--", t, "-");
    CollapseTwoDashes(t);
    assert "-" + ("--" + t) == "--" + ("-" + t);
    CollapseTwoDashes("-" + t);
    assert "-" + ("-" + rt) == "--" + rt;
    CollapseTwoDashes(rt);
  }

  /** A character that does not start a double dash stays in front of the collapsed rest. */
  lemma CollapseCons(x: char, y: string)
    requires y != [] && !(x == '-' && y[0] == '-')
    ensures Collapse([x] + y) == [x] + Collapse(y)
  {
    assert ([x] + y)[1..] == y;
  }

  /** A dash in front of a dash-led text disappears in the collapse. */
  lemma CollapseDashDash(x: string)
    ensures Collapse("-" + ("-" + x)) == Collapse("-" + x)
  {
    assert "-" + ("-" + x) == "--" + x;
    CollapseTwoDashes(x);
  }

  /** A pass over text whose first character is not a dash. */
  lemma CollapseReplaceMissOther(c: char, t: string)
    requires c != '-'
    requires Collapse(ReplaceAll(t, "--", "-")) == Collapse(t)
    ensures Collapse([c] + ReplaceAll(t, "--", "-")) == Collapse([c] + t)
    ensures Collapse("-" + ([c] + ReplaceAll(t, "--", "-"))) == Collapse("-" + ([c] + t))
  {
    var rt := ReplaceAll(t, "--", "-");
    CollapseKeepFirst(c, rt);
    CollapseKeepFirst(c, t);
    CollapseCons('-', [c] + rt);
    CollapseCons('-', [c] + t);
  }

  /**
   * One `strings.ReplaceAll(out, "--", "-")` pass does not change what the
   * text collapses to, nor what it collapses to behind a dash.
   */
  lemma {:induction false} CollapseReplace(s: string)
    ensures Collapse(ReplaceAll(s, "--", "-")) == Collapse(s)
    ensures Collapse("-" + ReplaceAll(s, "--", "-")) == Collapse("-" + s)
    decreases |s|
  {
    if |s| < 2 {
      assert ReplaceAll(s, "--", "-") == s;
    } else if s[..2] == "--" {
      var t := s[2..];
      CollapseReplace(t);
      assert s == "--" + t;
      CollapseReplaceHit(t);
    } else {
      var t := s[1..];
      CollapseReplace(t);
      assert s == [s[0]] + t;
      assert s[0] == '-' ==> t[0] != '-' by {
        assert s[..2] == [s[0], s[1]];
      }
      if s[0] == '-' {
        var rt := ReplaceAll(t, "--", "-");
        assert ReplaceAll(s, "--", "-") == "-" + rt;
        CollapseDashDash(rt);
        CollapseDashDash(t);
      } else {
        assert ReplaceAll(s, "--", "-") == [s[0]] + ReplaceAll(t, "--", "-");
        CollapseReplaceMissOther(s[0], t);
      }
    }
  }

  /** A pass never lengthens the text, and shortens it when there is a double dash. */
  lemma {:induction false} ReplaceShortens(s: string)
    ensures |ReplaceAll(s, "--", "-")| <= |s|
    ensures Contains(s, "--") ==> |ReplaceAll(s, "--", "-")| < |s|
    decreases |s|
  {
    if |s| >= 2 {
      if s[..2] == "--" {
        ReplaceShortens(s[2..]);
      } else {
        ReplaceShortens(s[1..]);
        if Contains(s, "--") {
          var i := Find(s, "--");
          assert i != 0;
          assert s[1..][i - 1..i + 1] == s[i..i + 2];
          assert OccursAt(s[1..], "--", i - 1);
        }
      }
    }
  }

  /** strings.Contains(s, "--") says exactly that two dashes stand side by side. */
  lemma NoDoubleDashContains(s: string)
    ensures NoDoubleDash(s) <==> !Contains(s, "--")
  {
    if !NoDoubleDash(s) {
      var i :| 0 <= i < |s| - 1 && s[i] == '-' && s[i + 1] == '-';
      assert s[i..i + 2] == "--";
      assert OccursAt(s, "--", i);
    }
    if Contains(s, "--") {
      var i := Find(s, "--");
      assert s[i..i + 2] == "--";
      assert s[i] == '-' && s[i + 1] == '-';
    }
  }

  // ---------------------------------------------------------------------------
  // sanitizeID
  // ---------------------------------------------------------------------------

  /** The dash steps of sanitizeID on the trimmed, lower-cased text. */
  function Dashed(t: string): (out: string)
    ensures OverIdAlphabet(out) && NoDoubleDash(out)
    ensures out != [] ==> out[0] != '-' && out[|out| - 1] != '-'
    ensures Alnums(out) == Alnums(t)
  {
    var m := DashMap(t);
    AlnumsDashMap(t);
    DashMapAt(t);
    assert OverIdAlphabet(m);
    var d := TrimDashes(m);
    CollapseShape(d);
    var out := Collapse(d);
    assert out != [] ==> d != [] && out[0] == d[0] && out[|out| - 1] == d[|d| - 1];
    out
  }

  /** What sanitizeID returns when nothing is left of its input. */
  const Unknown: string := "unknown"

  /** The fallback has the shape of a sanitized ID. */
  lemma UnknownShape()
    ensures Unknown != [] && OverIdAlphabet(Unknown) && NoDoubleDash(Unknown)
    ensures Unknown[0] != '-' && Unknown[|Unknown| - 1] != '-'
  {
    forall i | 0 <= i < |Unknown| ensures IsLowerAlnum(Unknown[i]) {
      assert Unknown[i] in "unknow";
    }
  }

  /**
   * sanitizeID: lower-case and trim, replace every character other than
   * [a-z0-9] by a dash, trim dashes, shrink dash runs; "unknown" when
   * nothing is left.
   */
  function Sanitized(s: string): string {
    var t := TrimSpace(ToLower(s));
    if t == [] then Unknown
    else
      var out := Dashed(t);
      if out == [] then Unknown else out
  }

  /**
   * A sanitized ID is never empty, uses only [a-z0-9-], neither starts nor
   * ends with a dash and has no two dashes in a row.
   */
  lemma SanitizedShape(s: string)
    ensures var r := Sanitized(s);
      && r != [] && OverIdAlphabet(r) && NoDoubleDash(r)
      && r[0] != '-' && r[|r| - 1] != '-'
  {
    UnknownShape();
  }

  /** The byte loop of sanitizeID: a dash for every character that is not kept. */
  method MapToDashes(t: string) returns (b: string)
    ensures b == DashMap(t)
  {
    b := "";
    var i := 0;
    DashMapAt(t);
    while i < |t|
      invariant 0 <= i <= |t|
      invariant b == DashMap(t)[..i]
    {
      assert DashMap(t)[..i + 1] == DashMap(t)[..i] + [DashMap(t)[i]];
      if IsLowerAlnum(t[i]) {
        b := b + [t[i]];
      } else {
        b := b + ['-'];
      }
      i := i + 1;
    }
  }

  /** The `for strings.Contains(out, "--")` loop: replace passes until no double dash is left. */
  method CollapseDashes(d: string) returns (out: string)
    ensures out == Collapse(d)
  {
    out := d;
    while Contains(out, "--")
      invariant Collapse(out) == Collapse(d)
      decreases |out|
    {
      CollapseReplace(out);
      ReplaceShortens(out);
      out := ReplaceAll(out, "--", "-");
    }
    NoDoubleDashContains(out);
    CollapseFixed(out);
  }

  /** sanitizeID step by step. */
  method SanitizeId(s: string) returns (r: string)
    ensures r == Sanitized(s)
  {
    var t := TrimSpace(ToLower(s));
    if t == [] {
      r := Unknown;
    } else {
      var b := MapToDashes(t);
      var out := CollapseDashes(TrimDashes(b));
      assert out == Dashed(t);
      r := if out == [] then Unknown else out;
    }
  }

  /** Every kept character of the lower-cased input survives, in order; with none, the result is "unknown". */
  lemma SanitizedKeepsAlnums(s: string)
    ensures Alnums(ToLower(s)) != [] ==> Alnums(Sanitized(s)) == Alnums(ToLower(s))
    ensures Alnums(ToLower(s)) == [] ==> Sanitized(s) == Unknown
  {
    var low := ToLower(s);
    var t := TrimSpace(low);
    AlnumsTrimSpace(low);
    if t != [] {
      var out := Dashed(t);
      assert Alnums(out) == Alnums(low);
    }
  }

  /** White space is never a kept character, so trimming it keeps every kept character. */
  lemma AlnumsTrimSpace(s: string)
    ensures Alnums(TrimSpace(s)) == Alnums(s)
  {
    AlnumsTrimLeft(s);
    AlnumsTrimRight(TrimLeft(s));
  }

  lemma {:induction false} AlnumsTrimLeft(s: string)
    ensures Alnums(TrimLeft(s)) == Alnums(s)
  {
    if s != [] && IsSpace(s[0]) {
      AlnumsTrimLeft(s[1..]);
    }
  }

  lemma {:induction false} AlnumsTrimRight(s: string)
    ensures Alnums(TrimRight(s)) == Alnums(s)
  {
    if s != [] && IsSpace(s[|s| - 1]) {
      AlnumsTrimRight(s[..|s| - 1]);
      assert s == s[..|s| - 1] + [s[|s| - 1]];
      AlnumsAppend(s[..|s| - 1], [s[|s| - 1]]);
    }
  }

  /** Text already in sanitized shape passes through every step unchanged. */
  lemma SanitizedFixed(r: string)
    requires r != [] && OverIdAlphabet(r) && NoDoubleDash(r)
    requires r[0] != '-' && r[|r| - 1] != '-'
    ensures Sanitized(r) == r
  {
    assert ToLower(r) == r by {
      ToLowerAt(r);
      forall i | 0 <= i < |r| ensures LowerChar(r[i]) == r[i] {
        assert IsLowerAlnum(r[i]) || r[i] == '-';
      }
    }
    assert TrimLeft(r) == r by {
      assert !IsSpace(r[0]) by { assert IsLowerAlnum(r[0]); }
    }
    assert TrimRight(r) == r by {
      assert !IsSpace(r[|r| - 1]) by { assert IsLowerAlnum(r[|r| - 1]); }
    }
    assert DashMap(r) == r by {
      DashMapAt(r);
    }
    assert TrimDashLeft(r) == r;
    assert TrimDashRight(r) == r;
    CollapseFixed(r);
  }

  /** A sanitized ID is its own sanitized form: sanitizeID is a canonical form. */
  lemma SanitizedIdempotent(s: string)
    ensures Sanitized(Sanitized(s)) == Sanitized(s)
  {
    SanitizedShape(s);
    SanitizedFixed(Sanitized(s));
  }

  /** Case does not matter: an input and its lower-case form sanitize alike. */
  lemma SanitizedIgnoresCase(s: string)
    ensures Sanitized(ToLower(s)) == Sanitized(s)
  {
    ToLowerIdempotent(s);
  }

  // ---------------------------------------------------------------------------
  // IDs, domains and device keys
  // ---------------------------------------------------------------------------

  const DevicePrefix: string := "z2m-device-"
  const EntityPrefix: string := "z2m-entity-"

  /** z2mDeviceID. */
  function DeviceId(deviceKey: string): string {
    DevicePrefix + Sanitized(deviceKey)
  }

  /** z2mEntityID. */
  function EntityId(uniqueId: string): string {
    EntityPrefix + Sanitized(uniqueId)
  }

  /** A step of IdsDisjoint and the two SameIff lemmas: a prefixed text splits back into its prefix and the rest. */
  lemma PrefixSplit(p: string, x: string)
    ensures (p + x)[..|p|] == p && (p + x)[|p|..] == x
  {
  }

  /** The two prefixes differ at the same position, whatever follows them. */
  lemma PrefixesDiffer(d: string, e: string)
    ensures DevicePrefix + d != EntityPrefix + e
  {
    assert (DevicePrefix + d)[4] == 'd';
    assert (EntityPrefix + e)[4] == 'e';
  }

  /** A device ID and an entity ID never coincide, and each reads back its sanitized key. */
  lemma IdsDisjoint(deviceKey: string, uniqueId: string)
    ensures DeviceId(deviceKey) != EntityId(uniqueId)
    ensures DeviceId(deviceKey)[|DevicePrefix|..] == Sanitized(deviceKey)
    ensures EntityId(uniqueId)[|EntityPrefix|..] == Sanitized(uniqueId)
  {
    PrefixesDiffer(Sanitized(deviceKey), Sanitized(uniqueId));
    PrefixSplit(DevicePrefix, Sanitized(deviceKey));
    PrefixSplit(EntityPrefix, Sanitized(uniqueId));
  }

  /** Two keys give the same device ID exactly when they sanitize alike. */
  lemma DeviceIdSameIff(k1: string, k2: string)
    ensures DeviceId(k1) == DeviceId(k2) <==> Sanitized(k1) == Sanitized(k2)
  {
    PrefixSplit(DevicePrefix, Sanitized(k1));
    PrefixSplit(DevicePrefix, Sanitized(k2));
  }

  /** Two unique IDs give the same entity ID exactly when they sanitize alike. */
  lemma EntityIdSameIff(u1: string, u2: string)
    ensures EntityId(u1) == EntityId(u2) <==> Sanitized(u1) == Sanitized(u2)
  {
    PrefixSplit(EntityPrefix, Sanitized(u1));
    PrefixSplit(EntityPrefix, Sanitized(u2));
  }

  /** The entity domains the host knows. */
  predicate IsKnownDomain(t: string) {
    t == "light" || t == "switch" || t == "binary_sensor" || t == "sensor" || t == "cover"
  }

  /** mapDomain: a known component is its own domain; anything else is a sensor. */
  function MapDomain(entityType: string): string {
    if IsKnownDomain(entityType) then entityType else "sensor"
  }

  /** The domain is always known, known domains are fixed points, and the rest fall back to "sensor". */
  lemma MapDomainProps(entityType: string)
    ensures IsKnownDomain(MapDomain(entityType))
    ensures MapDomain(MapDomain(entityType)) == MapDomain(entityType)
    ensures MapDomain(entityType) == entityType <==> IsKnownDomain(entityType)
    ensures !IsKnownDomain(entityType) ==> MapDomain(entityType) == "sensor"
  {
  }

  // ---------------------------------------------------------------------------
  // The device key: fmt.Sprintf("%v", identifiers[0])
  // ---------------------------------------------------------------------------

  /** `digits` without its trailing zeros (at least one digit stays). */
  function StripTrailingZeros(digits: string): (r: string)
    requires |digits| >= 1
    ensures 1 <= |r| <= |digits| && r == digits[..|r|]
    ensures |r| > 1 ==> r[|r| - 1] != '0'
    decreases |digits|
  {
    if |digits| > 1 && digits[|digits| - 1] == '0' then StripTrailingZeros(digits[..|digits| - 1])
    else digits
  }

  /** The exponent part of Go's %e output: sign and at least two digits. */
  function ExponentText(e: nat): string {
    "e+" + (if e < 10 then "0" else "") + NatToDecimal(e)
  }

  /**
   * Go's %v of a float64 that holds the integer `n`: plain decimal below one
   * million in magnitude, otherwise the shortest mantissa with an exponent
   * (1000000 prints as "1e+06", 1234567 as "1.234567e+06").
   */
  function FormatFloatInt(n: int): (r: string)
    ensures -1_000_000 < n < 1_000_000 ==> r == IntToDecimal(n)
  {
    if -1_000_000 < n < 1_000_000 then IntToDecimal(n)
    else
      var m: nat := if n < 0 then -n else n;
      var digits := NatToDecimal(m);
      var mant := StripTrailingZeros(digits);
      (if n < 0 then "-" else "")
      + [mant[0]] + (if |mant| > 1 then "." + mant[1..] else "")
      + ExponentText(|digits| - 1)
  }

  /** fmt's %v of one decoded identifier. */
  function FormatIdentifier(id: Identifier): string {
    match id
    case IdString(s) => s
    case IdNumber(n) => FormatFloatInt(n)
    case IdBool(b) => if b then "true" else "false"
    case IdNull => "<nil>"
  }

  /** deviceKeyFromDiscovery: the first identifier, formatted; "" without identifiers. */
  function DeviceKeyFromDiscovery(data: Payload): (r: string)
    ensures data.device.identifiers == [] ==> r == ""
    ensures data.device.identifiers != [] && data.device.identifiers[0].IdString?
            ==> r == data.device.identifiers[0].s
  {
    if |data.device.identifiers| == 0 then ""
    else FormatIdentifier(data.device.identifiers[0])
  }

  /** A device key is empty only without identifiers or with an empty first string identifier. */
  lemma DeviceKeyEmpty(data: Payload)
    ensures DeviceKeyFromDiscovery(data) == ""
        <==> data.device.identifiers == [] || data.device.identifiers[0] == IdString("")
  {
    if data.device.identifiers != [] {
      match data.device.identifiers[0]
      case IdNumber(n) =>
        if -1_000_000 < n < 1_000_000 {
          assert |IntToDecimal(n)| >= 1;
        }
      case _ =>
    }
  }

  /** One million is printed in exponent form. */
  lemma MillionFormat()
    ensures FormatFloatInt(1_000_000) == "1e+06"
  {
    assert NatToDecimal(1) == "1";
    assert NatToDecimal(10) == "10";
    assert NatToDecimal(100) == "100";
    assert NatToDecimal(1_000) == "1000";
    assert NatToDecimal(10_000) == "10000";
    assert NatToDecimal(100_000) == "100000";
    assert NatToDecimal(1_000_000) == "1000000";
    assert StripTrailingZeros("1000000") == "1";
  }
}
