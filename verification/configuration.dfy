/** The key-value configuration of TeslaConfiguration.kt, with the file
    reduced to its lines and the loaded properties to a map.

    `updateConfiguration` rewrites the file line by line: every line is
    trimmed, and a `key=value` line whose key is being changed gets the
    new value. The `read*` accessors turn the stored text into results. */
module Configuration {
  import opened Wrappers
  import opened Strings

  const AccessTokenKey: string := "ACCESS_TOKEN"
  const RefreshTokenKey: string := "REFRESH_TOKEN"
  const VinKey: string := "VIN"
  const IdSKey: string := "ID_S"
  const DisplayNameKey: string := "DISPLAY_NAME"
  const HomeLatitudeKey: string := "HOME_LATITUDE"
  const HomeLongitudeKey: string := "HOME_LONGITUDE"

  /** The values to store, by key. A `None` value is a Kotlin `null`. */
  type Changes = map<string, Option<string>>

  /** `Any?.toString()`: a `null` value is written as the text "null". */
  function RenderValue(v: Option<string>): string
  {
    match v
    case Some(s) => s
    case None => "null"
  }

  /** Where the key of a trimmed line ends: the index of its first '=' when
      that index is positive (`line.indexOf("=") > 0`), otherwise `None`. */
  function KeyEnd(line: string): (k: Option<nat>)
    ensures k.Some? ==> 0 < k.value < |line| && line[k.value] == '=' && '=' !in line[..k.value]
    ensures k.None? ==> |line| == 0 || line[0] == '=' || '=' !in line
  {
    var k := FirstIndexOfChar(line, '=');
    if 0 < k < |line| then Some(k)
    else
      assert k == |line| ==> line[..k] == line;
      None
  }

  /** The key of a trimmed line: the text before its first '=', if the line
      is a `key=value` line. */
  function KeyOf(line: string): Option<string>
  {
    match KeyEnd(line)
    case Some(k) => Some(line[..k])
    case None => None
  }

  /** One line of `updateConfiguration`. */
  function RewriteLine(raw: string, changes: Changes): string
  {
    var line := Trim(raw);
    match KeyEnd(line)
    case None => line
    case Some(k) =>
      var key := line[..k];
      var value := line[k + 1..];
      if key in changes then key + "=" + RenderValue(changes[key]) else key + "=" + value
  }

  /** The new file content: one rewritten line per input line, in order. */
  function RewriteLines(lines: seq<string>, changes: Changes): (out: seq<string>)
    ensures |out| == |lines|
  {
    seq(|lines|, i requires 0 <= i < |lines| => RewriteLine(lines[i], changes))
  }

  /** What one line becomes: a line that is not `key=value`, or whose key
      is not being changed, is only trimmed; a changed key gets its new
      value after the same key. */
  lemma RewriteLineMeaning(raw: string, changes: Changes)
    ensures var line := Trim(raw);
            && (KeyOf(line).None? ==> RewriteLine(raw, changes) == line)
            && (KeyOf(line).Some? && KeyOf(line).value !in changes ==> RewriteLine(raw, changes) == line)
            && (KeyOf(line).Some? && KeyOf(line).value in changes ==>
                  RewriteLine(raw, changes) == KeyOf(line).value + "=" + RenderValue(changes[KeyOf(line).value]))
  {
    var line := Trim(raw);
    match KeyEnd(line)
    case None =>
    case Some(k) =>
      assert line == line[..k] + "=" + line[k + 1..];
  }

  /** The key of `key=rest` is `key`, whatever `rest` holds. */
  lemma KeyOfKeyValue(key: string, rest: string)
    requires |key| > 0 && '=' !in key
    ensures KeyOf(key + "=" + rest) == Some(key)
  {
    var line := key + "=" + rest;
    assert line[..|key|] == key && line[|key|] == '=';
    assert '=' !in line[..|key|];
  }

  /** Rewriting keeps every line's key, so a changed key that no line
      carries is never added. */
  lemma RewriteLineKeepsKey(raw: string, changes: Changes)
    ensures KeyOf(RewriteLine(raw, changes)) == KeyOf(Trim(raw))
  {
    var line := Trim(raw);
    match KeyEnd(line)
    case None =>
    case Some(k) =>
      var key := line[..k];
      if key in changes {
        KeyOfKeyValue(key, RenderValue(changes[key]));
      } else {
        KeyOfKeyValue(key, line[k + 1..]);
      }
  }

  /** Trimming a rewritten `key=value` line cannot reach its key: the key
      starts with a non-blank character and is followed by '='. */
  lemma {:induction false} TrimKeepsKeyPrefix(s: string, k: nat)
    requires 0 < k < |s| && s[k] == '=' && '=' !in s[..k] && !IsBlank(s[0])
    ensures KeyOf(Trim(s)) == Some(s[..k])
  {
    var t := Trim(s);
    var a := SkipBlanks(s, 0);
    assert a == 0;
    assert |t| > k;
    assert t[..k] == s[..k] && t[k] == '=';
    assert KeyEnd(t) == Some(k);
  }

  /** A line holding a changed key and its new value is left as it is. */
  lemma ChangedLineStable(key: string, changes: Changes)
    requires |key| > 0 && '=' !in key && !IsBlank(key[0]) && key in changes
    ensures var s := key + "=" + RenderValue(changes[key]);
            RewriteLine(s, changes) == s
  {
    var s := key + "=" + RenderValue(changes[key]);
    assert s[..|key|] == key && s[|key|] == '=' && s[0] == key[0];
    TrimKeepsKeyPrefix(s, |key|);
  }

  /** Rewriting with the same changes a second time changes nothing. */
  lemma {:induction false} RewriteLineIdempotent(raw: string, changes: Changes)
    ensures RewriteLine(RewriteLine(raw, changes), changes) == RewriteLine(raw, changes)
  {
    var line := Trim(raw);
    RewriteLineMeaning(raw, changes);
    TrimIdempotent(raw);
    match KeyEnd(line)
    case None =>
    case Some(k) =>
      var key := line[..k];
      if key in changes {
        assert !IsBlank(key[0]) by {
          assert key[0] == line[0];
        }
        ChangedLineStable(key, changes);
      }
  }

  /** The whole-file form of idempotence. */
  lemma RewriteLinesIdempotent(lines: seq<string>, changes: Changes)
    ensures RewriteLines(RewriteLines(lines, changes), changes) == RewriteLines(lines, changes)
  {
    forall i | 0 <= i < |lines| {
      RewriteLineIdempotent(lines[i], changes);
    }
  }

  /** `updateConfiguration`: the content written back, or `None` when the
      file had no lines and is left untouched. */
  function UpdateConfiguration(lines: seq<string>, changes: Changes): (written: Option<seq<string>>)
    ensures written.Some? <==> |lines| > 0
    ensures written.Some? ==> written.value == RewriteLines(lines, changes)
  {
    if |lines| > 0 then Some(RewriteLines(lines, changes)) else None
  }

  /** The file after an update. */
  function Apply(lines: seq<string>, changes: Changes): seq<string>
  {
    UpdateConfiguration(lines, changes).GetOr(lines)
  }

  /** `updateTokens`. */
  function TokenChanges(accessToken: Option<string>, refreshToken: Option<string>): (c: Changes)
    ensures c.Keys == {AccessTokenKey, RefreshTokenKey}
    ensures c[AccessTokenKey] == accessToken && c[RefreshTokenKey] == refreshToken
  {
    map[AccessTokenKey := accessToken, RefreshTokenKey := refreshToken]
  }

  /** `updateVin`. */
  function VinChanges(vin: Option<string>, idS: Option<string>, displayName: Option<string>): (c: Changes)
    ensures c.Keys == {VinKey, IdSKey, DisplayNameKey}
    ensures c[VinKey] == vin && c[IdSKey] == idS && c[DisplayNameKey] == displayName
  {
    map[VinKey := vin, IdSKey := idS, DisplayNameKey := displayName]
  }

  /** `updateHomeLocation`; `render` is `Double.toString()`. */
  function HomeChanges(latitude: real, longitude: real, render: real -> string): (c: Changes)
    ensures c.Keys == {HomeLatitudeKey, HomeLongitudeKey}
    ensures c[HomeLatitudeKey] == Some(render(latitude)) && c[HomeLongitudeKey] == Some(render(longitude))
  {
    map[HomeLatitudeKey := Some(render(latitude)), HomeLongitudeKey := Some(render(longitude))]
  }

  /** The line is a `key=value` line whose key is one of `keys`. */
  predicate KeyIn(line: string, keys: set<string>)
  {
    KeyOf(line).Some? && KeyOf(line).value in keys
  }

  /** An update changes only the lines of the keys it names; every other
      line is just trimmed. So `updateTokens`, `updateVin` and
      `updateHomeLocation` touch only their own keys. */
  lemma RewriteTouchesOnlyChangedKeys(lines: seq<string>, changes: Changes)
    ensures var out := RewriteLines(lines, changes);
            forall i :: 0 <= i < |lines| && !KeyIn(Trim(lines[i]), changes.Keys) ==> out[i] == Trim(lines[i])
  {
    forall i | 0 <= i < |lines| {
      RewriteLineMeaning(lines[i], changes);
    }
  }

  /** The loaded properties (`java.util.Properties`), by key. */
  type Properties = map<string, string>

  /** `readAccessToken` / `readRefreshToken`: the declared return type is a
      non-null String, so a missing key fails the platform null check. */
  function ReadRequired(props: Properties, key: string): (r: Result<string>)
    ensures r.Ok? <==> key in props
    ensures r.Ok? ==> r.value == props[key]
    ensures r.Err? ==> r.failure == NullPointer
  {
    if key in props then Ok(props[key]) else Err(NullPointer)
  }

  /** `readVin` / `readID_S` / `readDisplayName`: an empty stored value
      reads as null; a missing key fails on `.isEmpty()`. */
  function ReadOptional(props: Properties, key: string): (r: Result<Option<string>>)
    ensures r.Err? <==> key !in props
    ensures r.Err? ==> r.failure == NullPointer
    ensures r.Ok? ==> (r.value.None? <==> props[key] == "")
    ensures r.Ok? && r.value.Some? ==> r.value.value == props[key]
  {
    if key !in props then Err(NullPointer)
    else if props[key] == "" then Ok(None)
    else Ok(Some(props[key]))
  }

  /** `readHomeLatitude` / `readHomeLongitude`: `parse` is
      `String.toDouble()`, `None` when the text is not a number. */
  function ReadCoordinate(props: Properties, key: string, parse: string -> Option<real>): (r: Result<real>)
    ensures r.Ok? <==> key in props && parse(props[key]).Some?
    ensures r.Ok? ==> r.value == parse(props[key]).value
    ensures key !in props ==> r == Err(NullPointer)
  {
    if key !in props then Err(NullPointer)
    else match parse(props[key])
      case Some(x) => Ok(x)
      case None => Err(NumberFormat)
  }

  /** A value as an update renders it is read back as the same value, unless
      it is empty (read as null); a null is written as the text "null". */
  lemma StoredIdentityReadsBack(key: string, v: Option<string>)
    ensures var props := map[key := RenderValue(v)];
            && (v.Some? && v.value != "" ==> ReadOptional(props, key) == Ok(v))
            && (v.Some? && v.value == "" ==> ReadOptional(props, key) == Ok(None))
            && (v.None? ==> ReadOptional(props, key) == Ok(Some("null")))
  {
  }
}
