/** Lookup helpers shared by the collection units: typed reads from WMI
    records and from the registry, and the resolution of localized names in a
    Chromium extension manifest. */
module Utils {
  import opened Common
  import opened Store

  // ---------------------------------------------------------------------
  // Boxed values and the type argument of the generic helpers
  // ---------------------------------------------------------------------

  /** A boxed value as WMI or the registry hands it over. */
  datatype Value =
    | Null
    | Int32(i: int)
    | UInt32(u: int)
    | Int64(l: int)
    | UInt64(ul: int)
    | Bool(b: bool)
    | Str(s: string)
    | StrArray(items: seq<string>)
    | Bytes(data: seq<byte>)

  /** The type argument `T` of `TryWmiRead<T>` and `GetRegistryValue<T>`. */
  datatype Kind = Int32Kind | UInt32Kind | Int64Kind | UInt64Kind | BoolKind | StringKind | StringArrayKind | BytesKind

  /** `v is T`: a null reference is of no type. */
  predicate Is(v: Value, k: Kind)
  {
    match v
    case Null => false
    case Int32(_) => k == Int32Kind
    case UInt32(_) => k == UInt32Kind
    case Int64(_) => k == Int64Kind
    case UInt64(_) => k == UInt64Kind
    case Bool(_) => k == BoolKind
    case Str(_) => k == StringKind
    case StrArray(_) => k == StringArrayKind
    case Bytes(_) => k == BytesKind
  }

  /** The numeric and boolean type arguments are value types; a null cannot
      be unboxed into them. */
  predicate IsValueType(k: Kind)
  {
    k.Int32Kind? || k.UInt32Kind? || k.Int64Kind? || k.UInt64Kind? || k.BoolKind?
  }

  /** A value a variable of type `T` can hold. */
  predicate Typed(v: Value, k: Kind)
  {
    Is(v, k) || (v.Null? && !IsValueType(k))
  }

  /** `default(T)`: zero or false for a value type, null otherwise. */
  function Default(k: Kind): (d: Value)
    ensures Typed(d, k)
    ensures d.Null? <==> !IsValueType(k)
  {
    match k
    case Int32Kind => Int32(0)
    case UInt32Kind => UInt32(0)
    case Int64Kind => Int64(0)
    case UInt64Kind => UInt64(0)
    case BoolKind => Bool(false)
    case _ => Null
  }

  // ---------------------------------------------------------------------
  // TryWmiRead
  // ---------------------------------------------------------------------

  /** `collection.TryWmiRead<T>(key, out value)`: the success flag and the
      value written to `value`. */
  function TryWmiRead(collection: map<string, Value>, key: string, k: Kind): (r: (bool, Value))
  {
    if key in collection && Is(collection[key], k) then (true, collection[key])
    else (false, Default(k))
  }

  /** The read succeeds exactly when the key is present with a value of the
      requested type; the value handed back is then the stored one, and
      otherwise `default(T)`; either way it has the requested type. */
  lemma TryWmiReadOutcome(collection: map<string, Value>, key: string, k: Kind)
    ensures TryWmiRead(collection, key, k).0 <==> key in collection && Is(collection[key], k)
    ensures TryWmiRead(collection, key, k).0 ==> TryWmiRead(collection, key, k).1 == collection[key]
    ensures !TryWmiRead(collection, key, k).0 ==> TryWmiRead(collection, key, k).1 == Default(k)
    ensures Typed(TryWmiRead(collection, key, k).1, k)
  {
  }

  /** A value of the requested type stored under a key reads back unchanged. */
  lemma TryWmiReadStored(collection: map<string, Value>, key: string, v: Value, k: Kind)
    requires Is(v, k)
    ensures TryWmiRead(collection[key := v], key, k) == (true, v)
  {
  }

  // ---------------------------------------------------------------------
  // GetRegistryValue
  // ---------------------------------------------------------------------

  /** A registry key: its name and, for each subkey path below it, the named
      values stored there. */
  datatype RegistryKey = RegistryKey(name: string, subKeys: map<string, map<string, Value>>)

  /** `key.GetValue(name)`: null when the value is absent. */
  function GetValue(values: map<string, Value>, name: string): Value
  {
    if name in values then values[name] else Null
  }

  /** The issue recorded when a registry value has the wrong type. The
      placeholder is `nameof(T)`, which is the literal text "T". */
  function CastFailureMessage(regKey: RegistryKey, path: string, name: string): string
  {
    "Registry item " + regKey.name + "\\" + path + "\\" + name + " cast to T failed"
  }

  /** What `GetRegistryValue` returns (or the exception that escapes it) and
      the issue it appends, if any. */
  datatype RegistryRead = RegistryRead(result: Result<Value, Exception>, issue: Option<string>)

  function ReadRegistry(regKey: RegistryKey, path: string, name: string, k: Kind, def: Value): RegistryRead
  {
    if path !in regKey.subKeys then RegistryRead(Ok(def), None)
    else
      var value := GetValue(regKey.subKeys[path], name);
      if value.Null? && IsValueType(k) then RegistryRead(Err(NullReference), None)
      else if value.Null? || Is(value, k) then RegistryRead(Ok(value), None)
      else RegistryRead(Ok(def), Some(CastFailureMessage(regKey, path, name)))
  }

  /** A missing subkey yields the default and no issue; a value of another
      type yields the default and exactly the one issue naming the key path;
      an absent value read as a value type throws NullReferenceException,
      which escapes; whatever is returned has the requested type. */
  lemma ReadRegistryOutcome(regKey: RegistryKey, path: string, name: string, k: Kind, def: Value)
    requires Typed(def, k)
    ensures path !in regKey.subKeys ==> ReadRegistry(regKey, path, name, k, def) == RegistryRead(Ok(def), None)
    ensures ReadRegistry(regKey, path, name, k, def).issue.Some? <==>
      path in regKey.subKeys && !GetValue(regKey.subKeys[path], name).Null? && !Is(GetValue(regKey.subKeys[path], name), k)
    ensures ReadRegistry(regKey, path, name, k, def).issue.Some? ==>
      ReadRegistry(regKey, path, name, k, def).result == Ok(def) &&
      ReadRegistry(regKey, path, name, k, def).issue.value == CastFailureMessage(regKey, path, name)
    ensures ReadRegistry(regKey, path, name, k, def).result.Err? <==>
      path in regKey.subKeys && GetValue(regKey.subKeys[path], name).Null? && IsValueType(k)
    ensures ReadRegistry(regKey, path, name, k, def).result.Ok? ==>
      Typed(ReadRegistry(regKey, path, name, k, def).result.value, k)
  {
  }

  /** The issue text names the registry key, the subkey path and the value. */
  lemma CastFailureMessageNamesPath(regKey: RegistryKey, path: string, name: string)
    ensures Contains(CastFailureMessage(regKey, path, name), regKey.name + "\\" + path + "\\" + name)
  {
    var m := CastFailureMessage(regKey, path, name);
    var p := regKey.name + "\\" + path + "\\" + name;
    assert m == "Registry item " + p + " cast to T failed";
    assert m[14..14 + |p|] == p;
    assert MatchAt(m, p, 14);
  }

  /** `GetRegistryValue<T>(regKey, path, name, def)`: reads and casts a
      registry value, appending an issue to the shared list when the cast
      fails. */
  method GetRegistryValue(cache: Cache, regKey: RegistryKey, path: string, name: string, k: Kind, def: Value)
    returns (r: Result<Value, Exception>)
    modifies cache`issues
    ensures r == ReadRegistry(regKey, path, name, k, def).result
    ensures cache.issues == old(cache.issues) +
      (match ReadRegistry(regKey, path, name, k, def).issue case Some(m) => [m] case None => [])
  {
    if path !in regKey.subKeys {
      return Ok(def);
    }
    var value := GetValue(regKey.subKeys[path], name);
    if value.Null? && IsValueType(k) {
      return Err(NullReference);
    }
    if value.Null? || Is(value, k) {
      return Ok(value);
    }
    var msg := CastFailureMessage(regKey, path, name);
    cache.AddIssue(msg);
    return Ok(def);
  }

  // ---------------------------------------------------------------------
  // ParseChromiumExtension: MSG_ placeholders
  // ---------------------------------------------------------------------

  /** The fields of `manifest.json` the parser reads; a missing field is None. */
  datatype Manifest = Manifest(
    name: Option<string>,
    description: Option<string>,
    version: Option<string>,
    defaultLocale: Option<string>)

  datatype Extension = Extension(name: Option<string>, description: Option<string>, version: Option<string>)

  /** `messages.json` of the default locale: each message key with the string
      fields of its entry. */
  type LocaleData = map<string, map<string, string>>

  /** `Regex.IsMatch(s, "MSG_(.+)")`: "MSG_" somewhere in the text, followed
      by at least one character that is not a line feed. */
  predicate MsgMatch(s: string)
  {
    exists i: nat :: MatchAt(s, "MSG_", i) && i + 4 < |s| && s[i + 4] != '\n'
  }

  /** `s.Substring(6, s.Length - 8)`: drops six leading and two trailing
      characters, and throws when the text is shorter than eight. */
  function MessageKey(s: string): Result<string, Exception>
  {
    if |s| < 8 then Err(ArgumentOutOfRange) else Ok(s[6..|s| - 2])
  }

  /** A placeholder written the way Chromium manifests write it resolves to
      the message key inside it. */
  lemma MessageKeyRoundTrip(key: string)
    requires key == [] || key[0] != '\n'
    ensures MsgMatch("__MSG_" + key + "__")
    ensures MessageKey("__MSG_" + key + "__") == Ok(key)
  {
    var s := "__MSG_" + key + "__";
    assert MatchAt(s, "MSG_", 2) && s[6] != '\n';
    assert s[6..|s| - 2] == key;
  }

  /** `(string)localeData[key]["message"]`: an absent key gives a null token,
      and indexing that throws NullReferenceException; an entry without a
      message gives null. */
  function LookupMessage(locale: LocaleData, key: string): Result<Option<string>, Exception>
  {
    if key !in locale then Err(NullReference)
    else if "message" in locale[key] then Ok(Some(locale[key]["message"]))
    else Ok(None)
  }

  /** One manifest field: text that is not a placeholder passes through;
      a placeholder is replaced by its message, looked up under the key
      itself or, on the retry, under the lower-cased key. A null field makes
      the regular expression throw. */
  function ResolveField(text: Option<string>, locale: LocaleData, lower: bool): Result<Option<string>, Exception>
  {
    if text.None? then Err(ArgumentNull)
    else if !MsgMatch(text.value) then Ok(text)
    else
      match MessageKey(text.value)
      case Err(e) => Err(e)
      case Ok(key) => LookupMessage(locale, if lower then Lower(key) else key)
  }

  /** One evaluation of the object initializer: name first, then description. */
  function BuildExtension(m: Manifest, locale: LocaleData, lower: bool): Result<Extension, Exception>
  {
    match ResolveField(m.name, locale, lower)
    case Err(e) => Err(e)
    case Ok(name) =>
      match ResolveField(m.description, locale, lower)
      case Err(e) => Err(e)
      case Ok(description) => Ok(Extension(name, description, m.version))
  }

  /** The test that decides whether the locale file is read: the name is
      tested first and the description only when the name does not match; a
      null field makes the test throw. */
  function NeedsLocale(m: Manifest): Result<bool, Exception>
  {
    if m.name.None? then Err(ArgumentNull)
    else if MsgMatch(m.name.value) then Ok(true)
    else if m.description.None? then Err(ArgumentNull)
    else Ok(MsgMatch(m.description.value))
  }

  /** `ParseChromiumExtension(path)`. `versionDirs` lists the extension's
      version directories; `manifest` is the outcome of reading and
      deserializing `manifest.json` in the last of them, and `localeFile` the
      outcome of reading and parsing the default locale's `messages.json`,
      which is read only when a field is a placeholder. A NullReference from
      the first evaluation triggers the lower-cased retry; every other
      exception, and any exception from the retry, makes the result null. */
  function ParseChromiumExtension(versionDirs: seq<string>, manifest: Result<Manifest, Exception>,
                                  localeFile: Result<LocaleData, Exception>): Option<Extension>
  {
    if versionDirs == [] then None
    else if manifest.Err? then None
    else
      var m := manifest.value;
      match NeedsLocale(m)
      case Err(_) => None
      case Ok(needs) =>
        var locale := if needs then localeFile else Ok(map[]);
        if locale.Err? then None
        else
          match BuildExtension(m, locale.value, false)
          case Ok(ext) => Some(ext)
          case Err(e) =>
            if e != NullReference then None
            else
              match BuildExtension(m, locale.value, true)
              case Ok(ext) => Some(ext)
              case Err(_) => None
  }

  /** A parsed extension always carries the manifest's version, and a field
      that is not a placeholder is copied unchanged. */
  lemma ParsedExtensionFields(versionDirs: seq<string>, manifest: Result<Manifest, Exception>,
                              localeFile: Result<LocaleData, Exception>)
    ensures ParseChromiumExtension(versionDirs, manifest, localeFile).Some? ==>
      var ext := ParseChromiumExtension(versionDirs, manifest, localeFile).value;
      && versionDirs != [] && manifest.Ok?
      && ext.version == manifest.value.version
      && manifest.value.name.Some? && manifest.value.description.Some?
      && (!MsgMatch(manifest.value.name.value) ==> ext.name == manifest.value.name)
      && (!MsgMatch(manifest.value.description.value) ==> ext.description == manifest.value.description)
  {
  }

  /** Missing files, unreadable or corrupt JSON, a missing version directory
      and a placeholder shorter than eight characters all make the result
      null. */
  lemma ParseFailures(versionDirs: seq<string>, manifest: Result<Manifest, Exception>,
                      localeFile: Result<LocaleData, Exception>)
    ensures versionDirs == [] ==> ParseChromiumExtension(versionDirs, manifest, localeFile).None?
    ensures manifest.Err? ==> ParseChromiumExtension(versionDirs, manifest, localeFile).None?
    ensures manifest.Ok? && NeedsLocale(manifest.value) == Ok(true) && localeFile.Err? ==>
      ParseChromiumExtension(versionDirs, manifest, localeFile).None?
    ensures (manifest.Ok? && manifest.value.name.Some? && MsgMatch(manifest.value.name.value) &&
             |manifest.value.name.value| < 8) ==>
      ParseChromiumExtension(versionDirs, manifest, localeFile).None?
  {
  }

  /** When the exact-case key is absent but its lower-cased form is present,
      the retry resolves the placeholder. */
  lemma LowerCaseRetry(versionDirs: seq<string>, m: Manifest, locale: LocaleData, key: string)
    requires versionDirs != [] && |key| > 0 && key[0] != '\n'
    requires m.name == Some("__MSG_" + key + "__")
    requires m.description.Some? && !MsgMatch(m.description.value)
    requires key !in locale && Lower(key) in locale && "message" in locale[Lower(key)]
    ensures ParseChromiumExtension(versionDirs, Ok(m), Ok(locale)) ==
      Some(Extension(Some(locale[Lower(key)]["message"]), m.description, m.version))
  {
    MessageKeyRoundTrip(key);
  }

  /** When the exact-case key is present, its message is used. */
  lemma ExactKeyResolves(versionDirs: seq<string>, m: Manifest, locale: LocaleData, key: string)
    requires versionDirs != [] && |key| > 0 && key[0] != '\n'
    requires m.name == Some("__MSG_" + key + "__")
    requires m.description.Some? && !MsgMatch(m.description.value)
    requires key in locale && "message" in locale[key]
    ensures ParseChromiumExtension(versionDirs, Ok(m), Ok(locale)) ==
      Some(Extension(Some(locale[key]["message"]), m.description, m.version))
  {
    MessageKeyRoundTrip(key);
  }
}
