/** How a Steam Web API `GetUserGroupList` answer becomes a membership
    result (src/SteamGroupCheckPlugin.cs: `QueryGroupMembershipAsync`,
    `TryParseGroupId`). The request itself is not modelled: the answer is a
    value, with the body already parsed as JSON where it is JSON. */
module Membership {
  import opened Text
  import opened Json
  import opened Catalog
  import opened Selection

  /** A verified member subset (`success` with ids), a verified non-member
      (`success`, no ids) or Unknown (no `success`, no ids). */
  datatype MembershipResult = MembershipResult(success: bool, memberGroupIds: set<UInt64>)

  const Unknown: MembershipResult := MembershipResult(false, {})
  const NotMember: MembershipResult := MembershipResult(true, {})

  /** What the request produced: a transport failure or time-out, or a
      status code with the body text and, when the body is JSON, its value. */
  datatype ApiReply =
    | TransportFailure
    | Reply(status: int, body: string, document: Option<JsonValue>)

  /** `HttpResponseMessage.IsSuccessStatusCode`. */
  predicate IsSuccessStatus(status: int) {
    200 <= status <= 299
  }

  /** The body mentions a private profile: not blank, and it contains
      "Private profile" ignoring case. */
  predicate PrivateProfileBody(body: string) {
    !Blank(body) && ContainsIgnoreCase(body, "Private profile")
  }

  // ---------------------------------------------------------------------------
  // The "success" field

  /** `bool.TryParse`: "true" or "false" in any case, after white space and
      NUL characters are trimmed from both ends. */
  function ParseBool(s: string): Option<bool> {
    var t := TrimBy(s, IsWhiteOrNul);
    if EqualsIgnoreCase(t, "true") then Some(true)
    else if EqualsIgnoreCase(t, "false") then Some(false)
    else None
  }

  /** Strings of different lengths differ ignoring case. */
  lemma LengthsDiffer(a: string, b: string)
    requires |a| != |b|
    ensures !EqualsIgnoreCase(a, b)
  {
    assert |Fold(a)| != |Fold(b)|;
  }

  /** `bool.TryParse` accepts exactly "true" and "false", ignoring case and
      the white space and NULs around them. */
  lemma ParseBoolReads(s: string)
    ensures ParseBool(s) == Some(true) <==> EqualsIgnoreCase(TrimBy(s, IsWhiteOrNul), "true")
    ensures ParseBool(s) == Some(false) <==> EqualsIgnoreCase(TrimBy(s, IsWhiteOrNul), "false")
  {
    var t := TrimBy(s, IsWhiteOrNul);
    if EqualsIgnoreCase(t, "false") {
      assert |t| == 5;
      LengthsDiffer(t, "true");
    }
  }

  /** `bool.ToString()`. */
  function BoolText(b: bool): string {
    if b then "True" else "False"
  }

  /** `bool.ToString()` is read back by `bool.TryParse`. */
  lemma BoolTextRoundTrip(b: bool)
    ensures ParseBool(BoolText(b)) == Some(b)
  {
    var s := BoolText(b);
    TrimUnchanged(s, IsWhiteOrNul);
    if b {
      FoldTrue();
    } else {
      FoldFalse();
    }
    ParseBoolReads(s);
  }

  lemma FoldTrue()
    ensures EqualsIgnoreCase("True", "true")
  {
    var f := Fold("True");
    assert f[0] == 't' && f[1] == 'r' && f[2] == 'u' && f[3] == 'e';
    assert Fold("true") == "true";
  }

  lemma FoldFalse()
    ensures EqualsIgnoreCase("False", "false")
  {
    var f := Fold("False");
    assert f[0] == 'f' && f[1] == 'a' && f[2] == 'l' && f[3] == 's' && f[4] == 'e';
    assert Fold("false") == "false";
  }

  /** What a string success field means: its integer value is 1, else its
      boolean value, else true. */
  function StringSuccess(s: string): bool {
    match ParseInt32(s)
    case Some(n) => n == 1
    case None =>
      match ParseBool(s)
      case Some(b) => b
      case None => true
  }

  /** The `success` field's value, normalised: a boolean as is; a number
      only when it is the integer 1; a string by `StringSuccess`; any other
      kind false. */
  function SuccessValue(v: JsonValue): bool {
    match v
    case JBool(b) => b
    case JNumber(raw) => TryGetInt32(raw) == Some(1)
    case JString(s) => StringSuccess(s)
    case _ => false
  }

  /** The `success` field of the "response" object: true when absent. */
  function SuccessFlag(response: map<string, JsonValue>): bool {
    if "success" !in response then true else SuccessValue(response["success"])
  }

  /** An integer success field, as a number or as text, means success
      exactly when it is 1. */
  lemma SuccessFromIntegerNumber(i: Int32)
    ensures SuccessValue(JNumber(IntegerText(i))) <==> i == 1
  {
    IntegerLiteralRoundTrip(i);
    assert TryGetInt32(IntegerText(i)) == Some(i);
  }

  lemma SuccessFromIntegerText(i: Int32)
    ensures SuccessValue(JString(IntegerText(i))) <==> i == 1
  {
    ParseIntegerText(i);
    assert ParseInt32(IntegerText(i)) == Some(i);
    assert StringSuccess(IntegerText(i)) == (i == 1);
  }

  /** Text that does not start with a digit, a sign or number white space is
      not an integer. */
  lemma NotAnInteger(s: string)
    requires |s| > 0 && !IsDigit(s[0]) && !IsNumberWhite(s[0]) && s[0] != '+' && s[0] != '-'
    ensures ParseInt32(s).None?
  {
    var t := TrimBy(s, IsNumberWhite);
    assert t == TrimEndBy(TrimStartBy(s, IsNumberWhite), IsNumberWhite);
    assert TrimStartBy(s, IsNumberWhite) == s;
  }

  /** A boolean written as text is read as that boolean. */
  lemma SuccessFromBoolText(b: bool)
    ensures SuccessValue(JString(BoolText(b))) == b
  {
    var s := BoolText(b);
    assert s[0] == 'T' || s[0] == 'F';
    NotAnInteger(s);
    BoolTextRoundTrip(b);
  }

  /** Text that is neither an integer nor a boolean leaves success true. */
  lemma UnparsableSuccessTextIsTrue()
    ensures SuccessFlag(map["success" := JString("yes")])
  {
    NotAnInteger("yes");
    TrimUnchanged("yes", IsWhiteOrNul);
    LengthsDiffer("yes", "true");
    LengthsDiffer("yes", "false");
    assert ParseBool("yes").None?;
  }

  // ---------------------------------------------------------------------------
  // Group ids

  /** `TryParseGroupId`: a string by `ulong.TryParse`, a number by
      `GetUInt64`; anything unreadable is 0, and 0 is rejected. */
  function TryParseGroupId(gid: JsonValue): (r: Option<UInt64>)
    ensures r.Some? ==> r.value != 0
  {
    var v: UInt64 :=
      match gid
      case JString(s) => (match ParseUInt64(s) case Some(n) => n case None => 0)
      case JNumber(raw) => (match TryGetUInt64(raw) case Some(n) => n case None => 0)
      case _ => 0;
    if v != 0 then Some(v) else None
  }

  /** A non-zero id written as a decimal string or number is read back; the
      id 0 never is. */
  lemma GroupIdTextRoundTrip(n: UInt64)
    ensures TryParseGroupId(JString(DecimalText(n))) == if n == 0 then None else Some(n)
  {
    ParseUInt64RoundTrip(n);
  }

  lemma GroupIdNumberRoundTrip(n: UInt64)
    ensures TryParseGroupId(JNumber(DecimalText(n))) == if n == 0 then None else Some(n)
  {
    IntegerLiteralRoundTrip(n);
    assert IntegerText(n) == DecimalText(n);
    assert TryGetUInt64(DecimalText(n)) == Some(n);
  }

  /** The array element `item` is an object whose "gid" reads as `id`. */
  predicate ListsGroup(item: JsonValue, id: UInt64, parse: JsonValue -> Option<UInt64>) {
    item.JObject? && "gid" in item.members && parse(item.members["gid"]) == Some(id)
  }

  /** The configured ids listed in a "groups" array, each element's "gid"
      read by `parse`; None when an element is not an object (reading its
      "gid" throws). */
  function MatchedGroupIds(items: seq<JsonValue>, lookup: set<UInt64>, parse: JsonValue -> Option<UInt64>): (r: Option<set<UInt64>>)
    ensures r.Some? ==> r.value <= lookup
  {
    if |items| == 0 then Some({})
    else
      match MatchedGroupIds(items[..|items| - 1], lookup, parse)
      case None => None
      case Some(acc) =>
        var item := items[|items| - 1];
        if !item.JObject? then None
        else if "gid" !in item.members then Some(acc)
        else
          match parse(item.members["gid"])
          case Some(id) => if id in lookup then Some(acc + {id}) else Some(acc)
          case None => Some(acc)
  }

  /** The matching succeeds exactly when every element is an object, and
      then yields exactly the configured ids some element lists. */
  lemma {:induction false} MatchedGroupIdsExact(items: seq<JsonValue>, lookup: set<UInt64>, parse: JsonValue -> Option<UInt64>)
    ensures MatchedGroupIds(items, lookup, parse).Some? <==> forall k | 0 <= k < |items| :: items[k].JObject?
    ensures MatchedGroupIds(items, lookup, parse).Some? ==>
              forall id :: id in MatchedGroupIds(items, lookup, parse).value <==>
                           id in lookup && exists k | 0 <= k < |items| :: ListsGroup(items[k], id, parse)
  {
    if |items| > 0 {
      var init, item := items[..|items| - 1], items[|items| - 1];
      MatchedGroupIdsExact(init, lookup, parse);
      assert forall k | 0 <= k < |init| :: init[k] == items[k];
      if MatchedGroupIds(items, lookup, parse).Some? {
        var r := MatchedGroupIds(items, lookup, parse).value;
        forall id
          ensures id in r <==> id in lookup && exists k | 0 <= k < |items| :: ListsGroup(items[k], id, parse)
        {
          if id in lookup && (exists k | 0 <= k < |items| :: ListsGroup(items[k], id, parse)) && !ListsGroup(item, id, parse) {
            var k :| 0 <= k < |items| && ListsGroup(items[k], id, parse);
            assert k < |init| && ListsGroup(init[k], id, parse);
          }
        }
      }
    }
  }

  /** Once an element fails, every longer prefix fails. */
  lemma {:induction false} MatchedGroupIdsFailsAfter(items: seq<JsonValue>, lookup: set<UInt64>, parse: JsonValue -> Option<UInt64>, n: nat)
    requires n <= |items| && MatchedGroupIds(items[..n], lookup, parse).None?
    ensures MatchedGroupIds(items, lookup, parse).None?
    decreases |items| - n
  {
    if n < |items| {
      assert items[..n + 1][..n] == items[..n];
      MatchedGroupIdsFailsAfter(items, lookup, parse, n + 1);
    } else {
      assert items[..n] == items;
    }
  }

  // ---------------------------------------------------------------------------
  // The whole answer

  /** The members of the document's "response" object, when the root is an
      object holding one. */
  function ResponseMembers(document: Option<JsonValue>): Option<map<string, JsonValue>> {
    if document.Some? && document.value.JObject? && "response" in document.value.members
       && document.value.members["response"].JObject?
    then Some(document.value.members["response"].members)
    else None
  }

  /** The response carries no "groups" array. */
  predicate NoGroupList(response: map<string, JsonValue>) {
    "groups" !in response || !response["groups"].JArray?
  }

  /** The answer of a request that returned a success status. */
  function InterpretDocument(document: Option<JsonValue>, lookup: set<UInt64>): (r: MembershipResult)
    ensures r.success ==> r.memberGroupIds <= lookup && 0 !in r.memberGroupIds
    ensures !r.success ==> r == Unknown
    ensures ResponseMembers(document).None? ==> r == Unknown
    ensures ResponseMembers(document).Some?
            && (!SuccessFlag(ResponseMembers(document).value) || NoGroupList(ResponseMembers(document).value))
            ==> r == NotMember
  {
    match document
    case None => Unknown
    case Some(root) =>
      if !root.JObject? || "response" !in root.members then Unknown
      else
        var response := root.members["response"];
        if !response.JObject? then Unknown
        else if !SuccessFlag(response.members) then NotMember
        else if "groups" !in response.members || !response.members["groups"].JArray? then NotMember
        else
          var items := response.members["groups"].items;
          match MatchedGroupIds(items, lookup, TryParseGroupId)
          case None => Unknown
          case Some(ids) =>
            MatchedIdsNonZero(items, lookup);
            MembershipResult(true, ids)
  }

  /** `TryParseGroupId` never yields 0, so no matched id is 0. */
  lemma MatchedIdsNonZero(items: seq<JsonValue>, lookup: set<UInt64>)
    ensures MatchedGroupIds(items, lookup, TryParseGroupId).Some? ==>
              0 !in MatchedGroupIds(items, lookup, TryParseGroupId).value
  {
    MatchedGroupIdsExact(items, lookup, TryParseGroupId);
    if MatchedGroupIds(items, lookup, TryParseGroupId).Some? {
      forall id | id in MatchedGroupIds(items, lookup, TryParseGroupId).value
        ensures id != 0
      {
        var k :| 0 <= k < |items| && ListsGroup(items[k], id, TryParseGroupId);
      }
    }
  }

  /** What `QueryGroupMembershipAsync` returns for an answer. */
  function QueryResult(apiKey: string, catalog: seq<ConfiguredGroup>, reply: ApiReply): (r: MembershipResult)
    ensures Blank(apiKey) || |catalog| == 0 || reply.TransportFailure? ==> r == Unknown
    ensures r.success ==> r.memberGroupIds <= CatalogIds(catalog) && 0 !in r.memberGroupIds
    ensures !r.success ==> r == Unknown
    ensures reply.Reply? && !IsSuccessStatus(reply.status) && !(reply.status == 403 && PrivateProfileBody(reply.body))
            ==> r == Unknown
    ensures reply.Reply? && IsSuccessStatus(reply.status) && ResponseMembers(reply.document).None? ==> r == Unknown
    ensures !Blank(apiKey) && |catalog| > 0 && reply.Reply? && IsSuccessStatus(reply.status)
            && ResponseMembers(reply.document).Some?
            && (!SuccessFlag(ResponseMembers(reply.document).value) || NoGroupList(ResponseMembers(reply.document).value))
            ==> r == NotMember
  {
    if Blank(apiKey) || |catalog| == 0 then Unknown
    else
      match reply
      case TransportFailure => Unknown
      case Reply(status, body, document) =>
        if !IsSuccessStatus(status) then
          if status == 403 && PrivateProfileBody(body) then NotMember else Unknown
        else InterpretDocument(document, CatalogIds(catalog))
  }

  /** A 403 whose body says "Private profile" is a verified non-member, not
      Unknown; without that text it is Unknown. */
  lemma PrivateProfileIsNotMember(apiKey: string, catalog: seq<ConfiguredGroup>, body: string, document: Option<JsonValue>)
    requires !Blank(apiKey) && |catalog| > 0
    ensures QueryResult(apiKey, catalog, Reply(403, body, document))
            == if ContainsIgnoreCase(body, "Private profile") then NotMember else Unknown
  {
    if ContainsIgnoreCase(body, "Private profile") {
      var needle := "Private profile";
      var i :| 0 <= i <= |body| - |needle| && MatchesAt(body, needle, i);
      var window := body[i..i + |needle|];
      assert Fold(window) == Fold(needle);
      assert FoldChar(window[0]) == 'p';
      assert window[0] == body[i];
      assert !IsWhiteSpace(body[i]);
    }
  }

  /** A response whose success field says failure is a verified non-member. */
  lemma ReportedFailureIsNotMember(apiKey: string, catalog: seq<ConfiguredGroup>, body: string, response: map<string, JsonValue>)
    requires !Blank(apiKey) && |catalog| > 0
    requires !SuccessFlag(response)
    ensures QueryResult(apiKey, catalog, Reply(200, body, Some(JObject(map["response" := JObject(response)])))) == NotMember
  {
  }

  /** A listing of group 7 as text, of group 42 as a number and of an entry
      without "gid", against a catalog holding group 7 but not 42, yields
      the verified subset {7}. */
  lemma ListingScenario(apiKey: string, g: ConfiguredGroup, body: string)
    requires !Blank(apiKey) && g.groupId == 7
    ensures var items := [JObject(map["gid" := JString(DecimalText(7))]),
                          JObject(map["gid" := JNumber(DecimalText(42))]),
                          JObject(map["name" := JString("other")])];
            QueryResult(apiKey, [g], Reply(200, body, Some(JObject(map["response" :=
              JObject(map["success" := JBool(true), "groups" := JArray(items)])]))))
            == MembershipResult(true, {7})
  {
    var items := [JObject(map["gid" := JString(DecimalText(7))]),
                  JObject(map["gid" := JNumber(DecimalText(42))]),
                  JObject(map["name" := JString("other")])];
    ListingMatches(items);
    assert CatalogIds([g]) == {7};
    var response := map["success" := JBool(true), "groups" := JArray(items)];
    assert SuccessFlag(response);
  }

  lemma ListingMatches(items: seq<JsonValue>)
    requires items == [JObject(map["gid" := JString(DecimalText(7))]),
                       JObject(map["gid" := JNumber(DecimalText(42))]),
                       JObject(map["name" := JString("other")])]
    ensures MatchedGroupIds(items, {7}, TryParseGroupId) == Some({7})
  {
    GroupIdTextRoundTrip(7);
    GroupIdNumberRoundTrip(42);
    var a, b, c := items[0], items[1], items[2];
    assert TryParseGroupId(a.members["gid"]) == Some(7);
    assert TryParseGroupId(b.members["gid"]) == Some(42);
    assert items[..0] == [] && items[..1][..0] == [] && items[..2][..1] == items[..1] && items[..3][..2] == items[..2];
    assert MatchedGroupIds([], {7}, TryParseGroupId) == Some({});
    var none: set<UInt64> := {};
    assert none + {7} == {7};
    assert MatchedGroupIds(items[..1], {7}, TryParseGroupId) == Some({7});
    assert MatchedGroupIds(items[..2], {7}, TryParseGroupId) == Some({7});
    assert items[..3] == items;
  }

  /** `QueryGroupMembershipAsync` over an answer: the guards, the status
      checks, and the loop over the "groups" array. */
  method QueryGroupMembership(apiKey: string, catalog: seq<ConfiguredGroup>, reply: ApiReply) returns (r: MembershipResult)
    ensures r == QueryResult(apiKey, catalog, reply)
  {
    if Blank(apiKey) || |catalog| == 0 || reply.TransportFailure? {
      return Unknown;
    }
    if !IsSuccessStatus(reply.status) {
      return if reply.status == 403 && PrivateProfileBody(reply.body) then NotMember else Unknown;
    }
    if reply.document.None? || !reply.document.value.JObject? || "response" !in reply.document.value.members {
      return Unknown;
    }
    var response := reply.document.value.members["response"];
    if !response.JObject? {
      return Unknown;
    }
    if !SuccessFlag(response.members) {
      return NotMember;
    }
    if "groups" !in response.members || !response.members["groups"].JArray? {
      return NotMember;
    }
    var items := response.members["groups"].items;
    var lookup := CatalogIds(catalog);
    var matched: set<UInt64> := {};
    var i := 0;
    while i < |items|
      invariant 0 <= i <= |items|
      invariant MatchedGroupIds(items[..i], lookup, TryParseGroupId) == Some(matched)
    {
      var item := items[i];
      assert items[..i + 1][..i] == items[..i];
      if !item.JObject? {
        MatchedGroupIdsFailsAfter(items, lookup, TryParseGroupId, i + 1);
        assert items[..|items|] == items;
        return Unknown;
      }
      if "gid" in item.members {
        var gid := TryParseGroupId(item.members["gid"]);
        if gid.Some? && gid.value in lookup {
          matched := matched + {gid.value};
        }
      }
      i := i + 1;
    }
    assert items[..|items|] == items;
    r := MembershipResult(true, matched);
  }
}
