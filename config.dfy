/**
 * The configuration loader. A configuration is a JSON value; the project's
 * `.taskconfig.json` is deep-merged over the built-in defaults, and
 * `createConfigFromStatuses` builds a configuration from a comma-separated
 * list.
 * Reading and writing the file are left to the caller: the parsed file is
 * passed in as an `Option<Json>`, `None` when it is missing or unreadable.
 */
module ConfigLoader {
  import opened JsString
  import opened TaskNames
  import opened SeqUtil

  /** A parsed JSON value. Numbers are integers; objects are keyed maps. */
  datatype Json =
    | JNull
    | JBool(b: bool)
    | JNum(n: int)
    | JStr(s: string)
    | JArr(items: seq<Json>)
    | JObj(fields: map<string, Json>)

  /** `isObject(item)`: truthy, of type `object`, and not an array. */
  predicate IsObject(j: Json) {
    j.JObj?
  }

  /** JavaScript truthiness of a JSON value. */
  predicate Truthy(j: Json) {
    match j
    case JNull => false
    case JBool(b) => b
    case JNum(n) => n != 0
    case JStr(s) => s != []
    case _ => true
  }

  /** The own properties of an array or string when spread: `"0"`, `"1"`, ... */
  function IndexMap(items: seq<Json>): (r: map<string, Json>)
    ensures items == [] ==> r == map[]
    ensures forall i :: 0 <= i < |items| ==> NatText(i) in r
  {
    if items == [] then map[]
    else IndexMap(items[..|items| - 1])[NatText(|items| - 1) := items[|items| - 1]]
  }

  /** The properties `{ ...v }` copies from a JSON value. */
  function Spread(j: Json): map<string, Json> {
    match j
    case JObj(m) => m
    case JArr(items) => IndexMap(items)
    case JStr(s) => IndexMap(seq(|s|, i requires 0 <= i < |s| => JStr([s[i]])))
    case _ => map[]
  }

  /**
   * `deepMerge(target, source)` as a value: a copy of the target where each
   * key of the source is written over it, an object under a key the target
   * also has being merged into the target's value.
   */
  function Merged(target: Json, source: Json): (r: Json)
    ensures r.JObj?
    decreases source
  {
    if target.JObj? && source.JObj? then
      var t := target.fields;
      var s := source.fields;
      JObj(map k | k in t.Keys + s.Keys ::
        if k in s then
          (if s[k].JObj? && k in t then Merged(t[k], s[k]) else s[k])
        else t[k])
    else JObj(Spread(target))
  }

  /**
   * `deepMerge`: copy the target, then go through the source's keys one at
   * a time, recursing into objects present on both sides.
   */
  method DeepMerge(target: Json, source: Json) returns (output: Json)
    ensures output == Merged(target, source)
    decreases source
  {
    var out := Spread(target);
    if target.JObj? && source.JObj? {
      var t := target.fields;
      var s := source.fields;
      var pending := s.Keys;
      while pending != {}
        invariant pending <= s.Keys
        invariant out.Keys == t.Keys + (s.Keys - pending)
        invariant forall k :: k in out && k !in s.Keys - pending ==> k in t && out[k] == t[k]
        invariant forall k :: k in s.Keys - pending ==> k in out && out[k] == Merged(target, source).fields[k]
        decreases pending
      {
        var k :| k in pending;
        if s[k].JObj? {
          if k !in t {
            out := out[k := s[k]];
          } else {
            var m := DeepMerge(t[k], s[k]);
            out := out[k := m];
          }
        } else {
          out := out[k := s[k]];
        }
        pending := pending - {k};
      }
      assert forall k :: k in out ==> out[k] == Merged(target, source).fields[k];
    }
    output := JObj(out);
  }

  // ---------------------------------------------------------------- merge properties

  /** Every key of the target and every key of the source is in the result, and no other. */
  lemma MergedKeys(target: Json, source: Json)
    requires IsObject(target) && IsObject(source)
    ensures Merged(target, source).fields.Keys == target.fields.Keys + source.fields.Keys
  {
  }

  /** A source value that is not a plain object (a scalar, `null`, an array) wins outright. */
  lemma MergedTakesSourceValue(target: Json, source: Json, k: string)
    requires IsObject(target) && IsObject(source)
    requires k in source.fields && !IsObject(source.fields[k])
    ensures k in Merged(target, source).fields && Merged(target, source).fields[k] == source.fields[k]
  {
  }

  /** A key only the target has keeps the target's value. */
  lemma MergedKeepsTargetValue(target: Json, source: Json, k: string)
    requires IsObject(target) && IsObject(source)
    requires k in target.fields && k !in source.fields
    ensures k in Merged(target, source).fields && Merged(target, source).fields[k] == target.fields[k]
  {
  }

  /** An object in the source is merged into the target's value when the target has the key, copied otherwise. */
  lemma MergedNestedObject(target: Json, source: Json, k: string)
    requires IsObject(target) && IsObject(source)
    requires k in source.fields && IsObject(source.fields[k])
    ensures k in Merged(target, source).fields
    ensures k in target.fields ==>
      Merged(target, source).fields[k] == Merged(target.fields[k], source.fields[k])
    ensures k !in target.fields ==> Merged(target, source).fields[k] == source.fields[k]
  {
  }

  /** When the source is not a plain object the target comes back unchanged. */
  lemma MergedNonObjectSource(target: Json, source: Json)
    requires IsObject(target) && !IsObject(source)
    ensures Merged(target, source) == target
  {
  }

  /**
   * A target that is not a plain object is only spread: whatever the source
   * holds is dropped. A number, boolean or `null` target becomes `{}`, and a
   * string or array target becomes its index keys.
   */
  lemma MergedNonObjectTarget(target: Json, source: Json)
    requires !IsObject(target)
    ensures Merged(target, source) == JObj(Spread(target))
    ensures target.JNum? || target.JBool? || target.JNull? ==> Merged(target, source) == JObj(map[])
  {
  }

  /** Merging in an empty object copies the target: `deepMerge(DEFAULT_CONFIG, {})` is the defaults. */
  lemma MergedEmptySource(target: Json)
    requires IsObject(target)
    ensures Merged(target, JObj(map[])) == target
  {
    assert Merged(target, JObj(map[])).fields == target.fields;
  }

  /** A source without nested objects overrides key by key: arrays replace, never concatenate. */
  lemma MergedFlatSource(target: Json, source: Json)
    requires IsObject(target) && IsObject(source)
    requires forall k :: k in source.fields ==> !IsObject(source.fields[k])
    ensures Merged(target, source).fields == target.fields + source.fields
  {
  }

  /** Merging an object with itself gives the object back, at every depth. */
  lemma {:induction false} MergedIdempotent(x: Json)
    requires IsObject(x)
    ensures Merged(x, x) == x
    decreases x
  {
    var m := Merged(x, x).fields;
    forall k | k in x.fields
      ensures k in m && m[k] == x.fields[k]
    {
      if x.fields[k].JObj? {
        MergedIdempotent(x.fields[k]);
      }
    }
    assert m == x.fields;
  }

  // ---------------------------------------------------------------- defaults

  /** One status entry: `{ key, label, color }`. */
  function StatusJson(key: string, caption: string, color: string): Json {
    JObj(map["key" := JStr(key), "label" := JStr(caption), "color" := JStr(color)])
  }

  const DefaultStatuses: seq<Json> := [
    StatusJson("backlog", "BACKLOG", "#6b7280"),
    StatusJson("todo", "TODO", "#3b82f6"),
    StatusJson("review", "REVIEW", "#eab308"),
    StatusJson("done", "DONE", "#22c55e")
  ]

  const DefaultFeatures: Json := JObj(map[
    "search" := JBool(true),
    "fullTextSearch" := JBool(true),
    "autoRefresh" := JBool(true),
    "refreshInterval" := JNum(30000)
  ])

  /** `DEFAULT_CONFIG`. */
  const DefaultConfig: Json := JObj(map[
    "version" := JStr("1.0"),
    "statuses" := JArr(DefaultStatuses),
    "port" := JNum(5500),
    "features" := DefaultFeatures
  ])

  /**
   * `loadProjectConfig`: the parsed project file merged over the defaults,
   * or a copy of the defaults when there is no readable file.
   */
  function LoadProjectConfig(parsed: Option<Json>): (r: Json)
    ensures r.JObj?
    ensures parsed.None? ==> r == DefaultConfig
  {
    if parsed.Some? then Merged(DefaultConfig, parsed.value) else DefaultConfig
  }

  /** `config.statuses || DEFAULT_CONFIG.statuses`. */
  function StatusesOf(config: map<string, Json>): (r: Json)
    ensures Truthy(r)
  {
    if "statuses" in config && Truthy(config["statuses"]) then config["statuses"] else JArr(DefaultStatuses)
  }

  /** `getStatuses`: the statuses of the loaded project configuration. */
  function GetStatuses(parsed: Option<Json>): Json {
    StatusesOf(LoadProjectConfig(parsed).fields)
  }

  /** `s.key` of one status: absent (`undefined`) unless `s` is an object holding `key`. */
  function KeyOf(s: Json): Option<Json> {
    if s.JObj? && "key" in s.fields then Some(s.fields["key"]) else None
  }

  /**
   * `statuses.map(s => s.key)`: `None` when it throws, because `statuses` is
   * not an array or one of its entries is `null`.
   */
  function StatusKeys(statuses: Json): (r: Option<seq<Option<Json>>>)
    ensures r.Some? <==> statuses.JArr? && forall i :: 0 <= i < |statuses.items| ==> !statuses.items[i].JNull?
    ensures r.Some? ==> |r.value| == |statuses.items|
  {
    if statuses.JArr? && forall i :: 0 <= i < |statuses.items| ==> !statuses.items[i].JNull? then
      Some(Map(statuses.items, KeyOf))
    else None
  }

  /** `getStatusKeys`. */
  function GetStatusKeys(parsed: Option<Json>): Option<seq<Option<Json>>> {
    StatusKeys(GetStatuses(parsed))
  }

  /** Without a project file the keys are the four defaults, in order. */
  lemma DefaultStatusKeys()
    ensures GetStatusKeys(None) ==
      Some([Some(JStr("backlog")), Some(JStr("todo")), Some(JStr("review")), Some(JStr("done"))])
  {
    assert GetStatuses(None) == JArr(DefaultStatuses);
    assert forall i :: 0 <= i < |DefaultStatuses| ==> DefaultStatuses[i].JObj?;
    var keys := Map(DefaultStatuses, KeyOf);
    assert StatusKeys(JArr(DefaultStatuses)) == Some(keys);
    assert keys[0] == Some(JStr("backlog"));
    assert keys[1] == Some(JStr("todo"));
    assert keys[2] == Some(JStr("review"));
    assert keys[3] == Some(JStr("done"));
    assert keys == [Some(JStr("backlog")), Some(JStr("todo")), Some(JStr("review")), Some(JStr("done"))];
    assert GetStatusKeys(None) == Some(keys);
  }

  /** A project's `statuses` array replaces the defaults, even an empty one. */
  lemma ProjectStatusesReplace(project: map<string, Json>, xs: seq<Json>)
    requires "statuses" in project && project["statuses"] == JArr(xs)
    ensures GetStatuses(Some(JObj(project))) == JArr(xs)
  {
    MergedTakesSourceValue(DefaultConfig, JObj(project), "statuses");
  }

  /** A falsy `statuses` in the project file falls back to the defaults. */
  lemma FalsyStatusesFallBack(project: map<string, Json>)
    requires "statuses" in project && !Truthy(project["statuses"])
    ensures GetStatuses(Some(JObj(project))) == JArr(DefaultStatuses)
  {
    MergedTakesSourceValue(DefaultConfig, JObj(project), "statuses");
  }

  /**
   * An object under `statuses` is merged into the default array, which
   * spreads into an index-keyed object: reading the keys then throws.
   */
  lemma ObjectStatusesThrow(project: map<string, Json>)
    requires "statuses" in project && IsObject(project["statuses"])
    ensures GetStatusKeys(Some(JObj(project))).None?
  {
    MergedNestedObject(DefaultConfig, JObj(project), "statuses");
    MergedNonObjectTarget(JArr(DefaultStatuses), project["statuses"]);
  }

  // ---------------------------------------------------------------- createConfigFromStatuses

  /** The colours `createConfigFromStatuses` knows by key. */
  const ColorMap: map<string, string> := map[
    "backlog" := "#6b7280",
    "todo" := "#3b82f6",
    "doing" := "#10b981",
    "review" := "#eab308",
    "done" := "#22c55e",
    "blocked" := "#ef4444",
    "cancelled" := "#6b7280"
  ]

  /** `colorMap[key] || "#6b7280"`. */
  function ColorFor(key: string): (r: string)
    ensures key in ColorMap ==> r == ColorMap[key]
    ensures key !in ColorMap ==> r == "#6b7280"
  {
    if key in ColorMap then ColorMap[key] else "#6b7280"
  }

  /** The key one comma-separated piece gives, as `s.key` reads it. */
  function PieceKey(piece: string): Option<Json> {
    Some(JStr(ToLower(Trim(piece))))
  }

  /** The status one comma-separated piece stands for. */
  function StatusOfPiece(piece: string): Json {
    var key := ToLower(Trim(piece));
    StatusJson(key, ToUpper(Trim(piece)), ColorFor(key))
  }

  /**
   * `createConfigFromStatuses(statusesStr)`: `None` stands for a missing
   * argument. Falsy input gives the defaults; otherwise the defaults with
   * one status per comma-separated piece.
   */
  function CreateConfigFromStatuses(arg: Option<string>): (r: Json)
    ensures r.JObj? && r.fields.Keys == DefaultConfig.fields.Keys
    ensures forall k :: k in r.fields && k != "statuses" ==> r.fields[k] == DefaultConfig.fields[k]
    ensures arg.None? || arg == Some("") ==> r == DefaultConfig
  {
    if arg.None? || arg.value == "" then DefaultConfig
    else JObj(DefaultConfig.fields["statuses" := JArr(Map(Split(arg.value, ','), StatusOfPiece))])
  }

  /**
   * One status per comma-separated piece, in order: the trimmed piece as key
   * (lowercase) and label (uppercase), the two naming the same status up to
   * case, with the key's colour; joining the pieces again gives back the
   * argument.
   */
  lemma CreatedStatuses(str: string)
    requires str != ""
    ensures var pieces := Split(str, ',');
      Join(pieces, ',') == str &&
      CreateConfigFromStatuses(Some(str)).fields["statuses"].JArr? &&
      |CreateConfigFromStatuses(Some(str)).fields["statuses"].items| == |pieces| &&
      forall i :: 0 <= i < |pieces| ==>
        var key := ToLower(Trim(pieces[i]));
        var caption := ToUpper(Trim(pieces[i]));
        CreateConfigFromStatuses(Some(str)).fields["statuses"].items[i] == StatusJson(key, caption, ColorFor(key)) &&
        SameIgnoringCase(key, caption)
  {
    JoinSplit(str, ',');
    var pieces := Split(str, ',');
    forall i | 0 <= i < |pieces|
      ensures SameIgnoringCase(ToLower(Trim(pieces[i])), ToUpper(Trim(pieces[i])))
    {
      var t := Trim(pieces[i]);
      LowerOfUpper(t);
      LowerOfLower(t);
      SameIgnoringCaseIsLowerEqual(ToLower(t), ToUpper(t));
    }
  }

  /**
   * A configuration with the default keys, the default `features` and no
   * other object inside, read back as the project file: merging it over the
   * defaults changes nothing.
   */
  lemma ReadBackUnchanged(c: Json)
    requires c.JObj? && c.fields.Keys == DefaultConfig.fields.Keys
    requires c.fields["features"] == DefaultFeatures
    requires forall k :: k in c.fields && k != "features" ==> !IsObject(c.fields[k])
    ensures LoadProjectConfig(Some(c)) == c
  {
    var m := Merged(DefaultConfig, c).fields;
    MergedIdempotent(DefaultFeatures);
    MergedKeys(DefaultConfig, c);
    forall k | k in c.fields ensures m[k] == c.fields[k] {
      if k == "features" {
        MergedNestedObject(DefaultConfig, c, k);
      } else {
        MergedTakesSourceValue(DefaultConfig, c, k);
      }
    }
    assert m == c.fields;
  }

  /** A configuration built by `createConfigFromStatuses` reads back unchanged. */
  lemma CreatedConfigReadBack(arg: Option<string>)
    ensures LoadProjectConfig(Some(CreateConfigFromStatuses(arg))) == CreateConfigFromStatuses(arg)
  {
    var c := CreateConfigFromStatuses(arg);
    assert c.fields["statuses"].JArr?;
    ReadBackUnchanged(c);
  }

  /** The status keys read back from a created configuration are the lowercased trimmed pieces, in order. */
  lemma CreatedStatusKeys(str: string)
    requires str != ""
    ensures GetStatusKeys(Some(CreateConfigFromStatuses(Some(str)))) ==
      Some(Map(Split(str, ','), PieceKey))
  {
    var c := CreateConfigFromStatuses(Some(str));
    CreatedConfigReadBack(Some(str));
    var pieces := Split(str, ',');
    var statuses := Map(pieces, StatusOfPiece);
    assert GetStatuses(Some(c)) == JArr(statuses);
    assert forall i :: 0 <= i < |statuses| ==> statuses[i].JObj?;
    var keys := Map(pieces, PieceKey);
    forall i | 0 <= i < |pieces| ensures Map(statuses, KeyOf)[i] == keys[i] {
      KeyOfStatusOfPiece(pieces[i]);
    }
    assert Map(statuses, KeyOf) == keys;
    assert GetStatusKeys(Some(c)) == Some(Map(statuses, KeyOf));
  }

  lemma KeyOfStatusOfPiece(piece: string)
    ensures StatusOfPiece(piece).JObj? && KeyOf(StatusOfPiece(piece)) == PieceKey(piece)
  {
  }

  /** `createConfigFromStatuses(" Doing ")` gives the single status `doing`/`DOING` in green. */
  lemma CreateExample(str: string)
    requires str == " Doing "
    ensures CreateConfigFromStatuses(Some(str)).fields["statuses"] ==
      JArr([StatusJson("doing", "DOING", "#10b981")])
  {
    assert Split(str, ',') == [str] by {
      forall k | 0 <= k ensures !OccursAt(str, [','], k) {
        if 0 <= k < |str| {
          assert str[k..k + 1][0] == str[k];
        }
      }
    }
    assert TrimStart(str) == "Doing " by {
      assert IsJsSpace(str[0]) && str[1..] == "Doing ";
    }
    assert TrimEnd("Doing ") == "Doing" by {
      assert IsJsSpace(' ') && "Doing "[..5] == "Doing";
    }
    assert ToLower("Doing") == "doing";
    assert ToUpper("Doing") == "DOING";
  }
}
