/** Parsed JSON values as `System.Text.Json` exposes them: the value kinds of
    RFC 8259, numbers kept as their source text, and the integer accessors
    (`TryGetInt32`, `TryGetInt64`, `GetUInt64`) that succeed only on integer
    literals within range. Parsing text into these values is not modelled. */
module Json {
  import opened Text

  datatype JsonValue =
    | JNull
    | JBool(b: bool)
    | JNumber(raw: string)
    | JString(text: string)
    | JArray(items: seq<JsonValue>)
    | JObject(members: map<string, JsonValue>)

  /** A number's value when its text has no fraction and no exponent. */
  function IntegerLiteral(raw: string): (r: Option<int>)
    ensures r.Some? ==> |raw| > 0
  {
    if |raw| > 1 && raw[0] == '-' && AllDigits(raw[1..]) then Some(0 - DecimalValue(raw[1..]))
    else if |raw| > 0 && AllDigits(raw) then Some(DecimalValue(raw))
    else None
  }

  function TryGetInt32(raw: string): Option<Int32> {
    match IntegerLiteral(raw)
    case Some(v) => if -0x8000_0000 <= v < 0x8000_0000 then Some(v as Int32) else None
    case None => None
  }

  function TryGetInt64(raw: string): Option<int> {
    match IntegerLiteral(raw)
    case Some(v) => if -0x8000_0000_0000_0000 <= v < 0x8000_0000_0000_0000 then Some(v) else None
    case None => None
  }

  /** `GetUInt64`, with None where it throws. */
  function TryGetUInt64(raw: string): Option<UInt64> {
    match IntegerLiteral(raw)
    case Some(v) => if 0 <= v < 0x1_0000_0000_0000_0000 then Some(v as UInt64) else None
    case None => None
  }

  /** The text a JSON writer produces for an integer is read back as that integer. */
  lemma IntegerLiteralRoundTrip(i: int)
    ensures IntegerLiteral(IntegerText(i)) == Some(i)
  {
    if i < 0 {
      var n: nat := -i;
      var d := DecimalText(n);
      assert IntegerText(i) == "-" + d && ("-" + d)[1..] == d;
      DecimalRoundTrip(n);
    } else {
      DecimalRoundTrip(i);
    }
  }
}
