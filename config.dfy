/** The configuration and localisation data of src/Config.cs: the settings
    object with its defaults, the per-group entries, the message templates
    with `ApplyDefaultsFrom`, and the lenient JSON converters that read
    strings and integers from any JSON token. */
module ConfigModel {
  import opened Text
  import opened Json

  /** One `SteamGroupConfig` entry of the configuration file. */
  datatype GroupEntry = GroupEntry(groupId: string, grantedFlag: string, name: Option<string>, priority: Int32)

  const DefaultGroupEntry := GroupEntry("REPLACE_ME", "@abs/membre", None, 0)

  /** The value held by a `Config` object. A list that is null in the source
      is the empty list here: every reader treats the two alike. */
  datatype ConfigData = ConfigData(
    steamApiKey: string,
    language: string,
    requestTimeoutSeconds: Int32,
    cacheDurationSeconds: Int32,
    nonMemberAdIntervalMinutes: Int32,
    groups: seq<Option<GroupEntry>>,
    enableDebugLogging: bool,
    extra: Option<map<string, JsonValue>>)

  const DefaultConfigData := ConfigData("REPLACE_ME", "en", 5, 120, 5, [Some(DefaultGroupEntry)], false, None)

  /** The settings object; `NormalizeConfig` patches its fields in place. */
  class Config {
    var steamApiKey: string
    var language: string
    var requestTimeoutSeconds: Int32
    var cacheDurationSeconds: Int32
    var nonMemberAdIntervalMinutes: Int32
    var groups: seq<Option<GroupEntry>>
    var enableDebugLogging: bool
    var extra: Option<map<string, JsonValue>>

    constructor ()
      ensures Data() == DefaultConfigData
    {
      steamApiKey := "REPLACE_ME";
      language := "en";
      requestTimeoutSeconds := 5;
      cacheDurationSeconds := 120;
      nonMemberAdIntervalMinutes := 5;
      groups := [Some(DefaultGroupEntry)];
      enableDebugLogging := false;
      extra := None;
    }

    function Data(): ConfigData
      reads this
    {
      ConfigData(steamApiKey, language, requestTimeoutSeconds, cacheDurationSeconds,
                 nonMemberAdIntervalMinutes, groups, enableDebugLogging, extra)
    }
  }

  // ---------------------------------------------------------------------------
  // Message templates.

  datatype MessageTexts = MessageTexts(
    prefix: string,
    memberDetected: string,
    steamIdUnavailable: string,
    groupCheckMember: string,
    groupCheckNotMember: string,
    nonMemberAdvertisement: string,
    groupCheckUnknown: string)

  const DefaultMessageTexts := MessageTexts(
    "{red}[Group]{reset} ",
    "You are detected as a member of: {MemberGroups}",
    "Your SteamID isn't available yet.",
    "You are a member of: {MemberGroups}",
    "You are not a member of our groups. Visit {GroupUrls}",
    "Join our Steam groups to unlock rewards! Visit {GroupUrls}",
    "Failed to determine group membership right now.")

  predicate AnyBlank(t: MessageTexts) {
    Blank(t.prefix) || Blank(t.memberDetected) || Blank(t.steamIdUnavailable)
    || Blank(t.groupCheckMember) || Blank(t.groupCheckNotMember)
    || Blank(t.nonMemberAdvertisement) || Blank(t.groupCheckUnknown)
  }

  function FillBlank(value: string, fallback: string): string {
    if Blank(value) then fallback else value
  }

  /** Every blank template replaced by its default; the others kept. */
  function FilledFrom(t: MessageTexts, d: MessageTexts): MessageTexts {
    MessageTexts(
      FillBlank(t.prefix, d.prefix),
      FillBlank(t.memberDetected, d.memberDetected),
      FillBlank(t.steamIdUnavailable, d.steamIdUnavailable),
      FillBlank(t.groupCheckMember, d.groupCheckMember),
      FillBlank(t.groupCheckNotMember, d.groupCheckNotMember),
      FillBlank(t.nonMemberAdvertisement, d.nonMemberAdvertisement),
      FillBlank(t.groupCheckUnknown, d.groupCheckUnknown))
  }

  /** With non-blank defaults nothing is left blank; with nothing blank
      nothing changes. */
  lemma FilledFromNonBlank(t: MessageTexts, d: MessageTexts)
    ensures !AnyBlank(d) ==> !AnyBlank(FilledFrom(t, d))
    ensures !AnyBlank(t) ==> FilledFrom(t, d) == t
  {
  }

  /** Patching twice with non-blank defaults: the second pass reports no
      change and leaves the templates as the first pass left them. */
  lemma ApplyDefaultsIdempotent(t: MessageTexts, d: MessageTexts)
    requires !AnyBlank(d)
    ensures !AnyBlank(FilledFrom(t, d))
    ensures FilledFrom(FilledFrom(t, d), d) == FilledFrom(t, d)
  {
  }

  class MessageConfig {
    var prefix: string
    var memberDetected: string
    var steamIdUnavailable: string
    var groupCheckMember: string
    var groupCheckNotMember: string
    var nonMemberAdvertisement: string
    var groupCheckUnknown: string

    constructor ()
      ensures Texts() == DefaultMessageTexts
    {
      prefix := DefaultMessageTexts.prefix;
      memberDetected := DefaultMessageTexts.memberDetected;
      steamIdUnavailable := DefaultMessageTexts.steamIdUnavailable;
      groupCheckMember := DefaultMessageTexts.groupCheckMember;
      groupCheckNotMember := DefaultMessageTexts.groupCheckNotMember;
      nonMemberAdvertisement := DefaultMessageTexts.nonMemberAdvertisement;
      groupCheckUnknown := DefaultMessageTexts.groupCheckUnknown;
    }

    function Texts(): MessageTexts
      reads this
    {
      MessageTexts(prefix, memberDetected, steamIdUnavailable, groupCheckMember,
                   groupCheckNotMember, nonMemberAdvertisement, groupCheckUnknown)
    }

    /** Replaces every blank template with the default's and reports whether
        any was replaced. */
    method ApplyDefaultsFrom(defaults: MessageConfig) returns (changed: bool)
      modifies this
      ensures Texts() == FilledFrom(old(Texts()), old(defaults.Texts()))
      ensures changed == AnyBlank(old(Texts()))
    {
      var d := defaults.Texts();
      changed := false;
      if Blank(prefix) {
        prefix := d.prefix;
        changed := true;
      }
      if Blank(memberDetected) {
        memberDetected := d.memberDetected;
        changed := true;
      }
      if Blank(steamIdUnavailable) {
        steamIdUnavailable := d.steamIdUnavailable;
        changed := true;
      }
      if Blank(groupCheckMember) {
        groupCheckMember := d.groupCheckMember;
        changed := true;
      }
      if Blank(groupCheckNotMember) {
        groupCheckNotMember := d.groupCheckNotMember;
        changed := true;
      }
      if Blank(groupCheckUnknown) {
        groupCheckUnknown := d.groupCheckUnknown;
        changed := true;
      }
      if Blank(nonMemberAdvertisement) {
        nonMemberAdvertisement := d.nonMemberAdvertisement;
        changed := true;
      }
    }
  }

  // ---------------------------------------------------------------------------
  // FlexibleStringConverter and FlexibleIntConverter.

  /** `FlexibleStringConverter.ReadElementAsString`: scalars as text, anything
      else as the empty string. */
  function ReadElementAsString(e: JsonValue): string {
    match e
    case JString(s) => s
    case JNumber(raw) => raw
    case JBool(b) => if b then "true" else "false"
    case _ => ""
  }

  /** The non-blank renderings of an array's elements, in order. */
  function NonBlankTexts(items: seq<JsonValue>): seq<string> {
    if |items| == 0 then []
    else
      var v := ReadElementAsString(items[|items| - 1]);
      NonBlankTexts(items[..|items| - 1]) + (if Blank(v) then [] else [v])
  }

  lemma {:induction false} NonBlankTextsAreNonBlank(items: seq<JsonValue>)
    ensures forall k | 0 <= k < |NonBlankTexts(items)| :: !Blank(NonBlankTexts(items)[k])
    ensures |NonBlankTexts(items)| == 0 <==> forall k | 0 <= k < |items| :: Blank(ReadElementAsString(items[k]))
  {
    if |items| > 0 {
      NonBlankTextsAreNonBlank(items[..|items| - 1]);
      assert forall k | 0 <= k < |items| - 1 :: items[..|items| - 1][k] == items[k];
    }
  }

  /** What an array token becomes: its non-blank element renderings joined with ", ". */
  function ArrayText(items: seq<JsonValue>): string {
    JoinComma(NonBlankTexts(items))
  }

  /** An array reads as "" exactly when every element renders blank. */
  lemma ArrayTextEmpty(items: seq<JsonValue>)
    ensures ArrayText(items) == "" <==> forall k | 0 <= k < |items| :: Blank(ReadElementAsString(items[k]))
  {
    NonBlankTextsAreNonBlank(items);
    if |NonBlankTexts(items)| > 0 {
      JoinCommaNonBlank(NonBlankTexts(items));
    }
  }

  /** `FlexibleStringConverter.ReadArray`, given the value parsed at the array token. */
  method ReadArray(value: JsonValue) returns (r: string)
    ensures r == if value.JArray? then ArrayText(value.items) else ""
  {
    if !value.JArray? {
      return "";
    }
    var items := value.items;
    var parts: seq<string> := [];
    var i := 0;
    while i < |items|
      invariant 0 <= i <= |items|
      invariant parts == NonBlankTexts(items[..i])
    {
      var v := ReadElementAsString(items[i]);
      if !Blank(v) {
        parts := parts + [v];
      }
      assert items[..i + 1][..i] == items[..i];
      i := i + 1;
    }
    assert items[..|items|] == items;
    r := if |parts| == 0 then "" else JoinComma(parts);
  }

  /** `FlexibleStringConverter.Read` on the token the reader stands on. */
  method StringConverterRead(token: JsonValue) returns (r: string)
    ensures token.JString? ==> r == token.text
    ensures token.JNumber? && TryGetInt64(token.raw).Some? ==> r == IntegerText(TryGetInt64(token.raw).value)
    ensures token.JBool? ==> r == if token.b then "true" else "false"
    ensures token.JArray? ==> r == ArrayText(token.items)
    ensures token.JNull? || token.JObject? ==> r == ""
  {
    match token
    case JString(s) =>
      r := s;
    case JNumber(raw) =>
      r := match TryGetInt64(raw)
        case Some(l) => IntegerText(l)
        case None => raw;
    case JBool(b) =>
      r := if b then "true" else "false";
    case JArray(_) =>
      r := ReadArray(token);
    case JNull =>
      r := "";
    case JObject(_) =>
      r := "";
  }

  /** `FlexibleStringConverter.Write`: the text is written as a JSON string,
      which reads back as the same text. */
  function StringConverterWrite(value: string): (token: JsonValue)
    ensures token.JString? && token.text == value
    ensures ReadElementAsString(token) == value
  {
    JString(value)
  }

  /** `FlexibleIntConverter.Read` on the token the reader stands on. */
  function IntConverterRead(token: JsonValue): Int32 {
    match token
    case JNumber(raw) =>
      (match TryGetInt32(raw)
       case Some(i) => i
       case None => 0)
    case JString(s) =>
      (match ParseInt32(s)
       case Some(i) => i
       case None => 0)
    case JBool(b) => if b then 1 else 0
    case _ => 0
  }

  /** `FlexibleIntConverter.Write`. */
  function IntConverterWrite(value: Int32): JsonValue {
    JNumber(IntegerText(value))
  }

  /** Reading back what the writer wrote, or the same number quoted as a
      string, returns the number. */
  lemma IntConverterRoundTrip(i: Int32)
    ensures IntConverterRead(IntConverterWrite(i)) == i
    ensures IntConverterRead(JString(IntegerText(i))) == i
  {
    var raw := IntegerText(i);
    IntegerLiteralRoundTrip(i);
    assert TryGetInt32(raw) == Some(i);
    ParseIntegerText(i);
    assert ParseInt32(raw) == Some(i);
  }

  /** Tokens that carry no integer read as 0, booleans as 1 and 0. */
  lemma IntConverterDefaults(token: JsonValue)
    ensures token.JBool? ==> IntConverterRead(token) == if token.b then 1 else 0
    ensures token.JNull? || token.JArray? || token.JObject? ==> IntConverterRead(token) == 0
    ensures token.JString? && ParseInt32(token.text).None? ==> IntConverterRead(token) == 0
    ensures token.JNumber? && IntegerLiteral(token.raw).Some? && TryGetInt32(token.raw).None? ==> IntConverterRead(token) == 0
  {
  }
}
