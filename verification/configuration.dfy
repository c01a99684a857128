/** The parsed archiver configuration and its status allowlist. */
module Configuration {
  import opened Wrappers

  datatype Status =
    Unspecified | Running | Completed | Failed | Canceled | Terminated | ContinuedAsNew | TimedOut

  /** A value of the configuration document: text, a list, or anything else. */
  datatype ConfigValue = TextValue(text: string) | ListValue(items: seq<ConfigValue>) | OtherValue

  type Document = map<string, ConfigValue>

  /** An empty set of allowed statuses, like an absent one, allows every status. */
  datatype Config = Config(endpoint: string, region: string, accessKeyId: string, secretAccessKey: string,
                           allowedStatuses: set<Status>)

  datatype ConfigError =
    | NilConfig
    | MissingKey(key: string)
    | NotAString(key: string)
    | StatusesNotAList
    | EntryNotAString
    | UnknownStatus(name: string)

  /** The text by which an operator names a status. */
  predicate StatusText(text: string, status: Status) {
    || (text == "Completed" && status == Completed)
    || (text == "Failed" && status == Failed)
    || (text == "TimedOut" && status == TimedOut)
    || (text == "Canceled" && status == Canceled)
    || (text == "Terminated" && status == Terminated)
    || (text == "ContinuedAsNew" && status == ContinuedAsNew)
  }

  /** The lookup table of status names. */
  function StatusByName(name: string): (found: Option<Status>)
    ensures forall status :: StatusText(name, status) <==> found == Some(status)
  {
    if name == "Completed" then Some(Completed)
    else if name == "Failed" then Some(Failed)
    else if name == "TimedOut" then Some(TimedOut)
    else if name == "Canceled" then Some(Canceled)
    else if name == "Terminated" then Some(Terminated)
    else if name == "ContinuedAsNew" then Some(ContinuedAsNew)
    else None
  }

  predicate StatusAllowed(config: Config, status: Status) {
    |config.allowedStatuses| == 0 || status in config.allowedStatuses
  }

  // ---- What a document must contain ----

  predicate HasText(document: Document, key: string) {
    key in document && document[key].TextValue?
  }

  predicate IsText(document: Document, key: string, text: string) {
    key in document && document[key] == TextValue(text)
  }

  /** The required keys, in the order they are looked up. */
  const REQUIRED_KEYS := ["endpoint", "region", "accessKeyID", "secretAccessKey"]

  predicate HasAllTexts(document: Document) {
    forall i | 0 <= i < |REQUIRED_KEYS| :: HasText(document, REQUIRED_KEYS[i])
  }

  /** The error for the first required key that is missing or not a text. */
  ghost predicate FirstTextError(document: Document, error: ConfigError) {
    exists i | 0 <= i < |REQUIRED_KEYS| ::
      && !HasText(document, REQUIRED_KEYS[i])
      && (forall j | 0 <= j < i :: HasText(document, REQUIRED_KEYS[j]))
      && error == if REQUIRED_KEYS[i] in document then NotAString(REQUIRED_KEYS[i]) else MissingKey(REQUIRED_KEYS[i])
  }

  predicate NamesStatus(entry: ConfigValue, status: Status) {
    entry.TextValue? && StatusText(entry.text, status)
  }

  ghost predicate NamesSome(entry: ConfigValue) {
    exists status :: NamesStatus(entry, status)
  }

  /** The error for the first allowlist entry that names no status. */
  ghost predicate FirstEntryError(entries: seq<ConfigValue>, error: ConfigError) {
    exists i | 0 <= i < |entries| ::
      && !NamesSome(entries[i])
      && (forall j | 0 <= j < i :: NamesSome(entries[j]))
      && error == if entries[i].TextValue? then UnknownStatus(entries[i].text) else EntryNotAString
  }

  ghost predicate GoodList(document: Document) {
    "allowedStatuses" !in document
    || (document["allowedStatuses"].ListValue?
        && forall entry | entry in document["allowedStatuses"].items :: NamesSome(entry))
  }

  /** The entries of the allowlist; an absent list has none. */
  function Entries(document: Document): seq<ConfigValue> {
    if "allowedStatuses" in document && document["allowedStatuses"].ListValue? then document["allowedStatuses"].items
    else []
  }

  function GetString(document: Document, key: string): Result<string, ConfigError> {
    if key !in document then Failure(MissingKey(key))
    else if !document[key].TextValue? then Failure(NotAString(key))
    else Success(document[key].text)
  }

  /** A document is accepted exactly when the four texts are there and every allowlist entry
      names a status; the parsed list then allows exactly the named statuses, or everything
      when nothing is named. A rejection names the first faulty entry. */
  method ParseConfig(document: Option<Document>) returns (parsed: Result<Config, ConfigError>)
    ensures parsed.Success? <==> document.Some? && HasAllTexts(document.value) && GoodList(document.value)
    ensures parsed.Success? ==>
              && IsText(document.value, "endpoint", parsed.value.endpoint)
              && IsText(document.value, "region", parsed.value.region)
              && IsText(document.value, "accessKeyID", parsed.value.accessKeyId)
              && IsText(document.value, "secretAccessKey", parsed.value.secretAccessKey)
    ensures parsed.Success? ==>
              forall status :: StatusAllowed(parsed.value, status) <==>
                  Entries(document.value) == []
                  || exists entry | entry in Entries(document.value) :: NamesStatus(entry, status)
    ensures document.None? ==> parsed == Failure(NilConfig)
    ensures document.Some? && !HasAllTexts(document.value) ==> FirstTextError(document.value, parsed.error)
    ensures document.Some? && HasAllTexts(document.value) && parsed.Failure? ==>
              if document.value["allowedStatuses"].ListValue?
              then FirstEntryError(Entries(document.value), parsed.error)
              else parsed.error == StatusesNotAList
  {
    if document.None? {
      return Failure(NilConfig);
    }
    var configs := document.value;
    var endpoint := GetString(configs, "endpoint");
    assert REQUIRED_KEYS[0] == "endpoint";
    if endpoint.Failure? {
      return Failure(endpoint.error);
    }
    var region := GetString(configs, "region");
    assert REQUIRED_KEYS[1] == "region";
    if region.Failure? {
      return Failure(region.error);
    }
    var accessKeyId := GetString(configs, "accessKeyID");
    assert REQUIRED_KEYS[2] == "accessKeyID";
    if accessKeyId.Failure? {
      return Failure(accessKeyId.error);
    }
    var secretAccessKey := GetString(configs, "secretAccessKey");
    assert REQUIRED_KEYS[3] == "secretAccessKey";
    if secretAccessKey.Failure? {
      return Failure(secretAccessKey.error);
    }
    var allowed: set<Status> := {};
    if "allowedStatuses" in configs {
      if !configs["allowedStatuses"].ListValue? {
        return Failure(StatusesNotAList);
      }
      var items := configs["allowedStatuses"].items;
      for i := 0 to |items|
        invariant forall j | 0 <= j < i :: NamesSome(items[j])
        invariant forall status :: status in allowed <==> exists j | 0 <= j < i :: NamesStatus(items[j], status)
      {
        assert items[i] in document.value["allowedStatuses"].items;
        if !items[i].TextValue? {
          return Failure(EntryNotAString);
        }
        var status := StatusByName(items[i].text);
        if status.None? {
          return Failure(UnknownStatus(items[i].text));
        }
        assert NamesStatus(items[i], status.value);
        allowed := allowed + {status.value};
      }
      if items != [] {
        assert NamesSome(items[0]);
        ghost var named :| NamesStatus(items[0], named);
        assert named in allowed;
      }
    }
    parsed := Success(Config(endpoint.value, region.value, accessKeyId.value, secretAccessKey.value, allowed));
  }
}
