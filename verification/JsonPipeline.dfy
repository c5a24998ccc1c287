/** The printer, the minifier and the parser of cJSON one after the other. */
module JsonPipeline {
  import opened Common
  import opened Bits
  import opened CStrings
  import opened JsonString
  import opened Json
  import opened JsonParse
  import opened JsonRoundTrip
  import JsonParser
  import JsonPrint
  import JsonMinify
  import JsonMinified
  import JsonMinifyParse

  /**
   * A tree printed in formatted form, minified in the printed buffer if asked for, and parsed from there, comes
   * back exactly when the printer has room for it and it is not nested too deeply.
   */
  method PrintMinifyParse(k: NumberCodec, v: Value, minify: bool) returns (r: Option<Value>)
    requires WellFormed(k, v)
    ensures r == if JsonPrint.Demand(k, v, true, 0) <= JsonPrint.INT_MAX &&
            Depth(v) <= NESTING_LIMIT then Some(v) else None
  {
    WellFormedPrintable(k, v);
    var printed := JsonPrint.Print(k, v, true, true);
    if printed.None? {
      return None;
    }
    var json := printed.value;
    if minify {
      JsonMinify.MinifyPrinted(k, v, true, json);
    }
    RenderNulFree(k, v, !minify, 0);
    CStringPrefix(json[..], Render(k, v, !minify, 0));
    PrintParseRoundTrip(k, v, !minify, true);
    r := JsonParser.ParseWithOpts(k, CString(json[..]), true);
  }

  /** Any C string that parses to its end, minified in its buffer and parsed from there, gives the same tree. */
  method MinifyParse(k: NumberCodec, json: array<byte>, ghost t: seq<byte>, ghost v: Value) returns (r: Option<Value>)
    requires |t| < json.Length && json[..|t|] == t && json[|t|] == 0 && 0 !in t && Parse(k, t, true) == Some(v)
    modifies json
    ensures r == Some(v)
  {
    JsonMinifyParse.MinifyKeepsMeaning(k, t, v);
    CStringPrefix(json[..], t);
    JsonMinify.Minify(json);
    CStringPrefix(json[..], JsonMinified.Remains(t, 0));
    r := JsonParser.ParseWithOpts(k, CString(json[..]), true);
  }
}
