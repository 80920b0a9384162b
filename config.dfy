/**
 * The backend's settings: the defaults of the Settings record, the
 * development-mode flag derived from ENVIRONMENT, and the validator that turns
 * the CORS_ORIGINS string into a list of origins.
 */
module Config {
  import opened Wrappers
  import opened Text

  const DefaultEnvironment := "development"
  const DefaultApiKey := ""
  const DefaultApiKeyHeader := "X-API-Key"
  const DefaultOrigin := "http://localhost:5173"
  /** One mebibyte. */
  const DefaultMaxRequestSize := 1048576
  const DefaultMaxQuestionLength := 500

  /** The fields of the settings object that the request path reads. */
  datatype Settings = Settings(
    environment: string,
    developmentMode: bool,
    apiKey: string,
    apiKeyHeader: string,
    maxRequestSize: int,
    maxQuestionLength: int)

  /** ENVIRONMENT: the environment variable of that name, "development" when unset. */
  function Environment(variable: Option<string>): string
  {
    variable.GetOr(DefaultEnvironment)
  }

  /** DEVELOPMENT_MODE: on exactly when ENVIRONMENT is "development", so on by default. */
  function DevelopmentMode(variable: Option<string>): (dev: bool)
    ensures dev <==> variable.None? || variable == Some("development")
  {
    Environment(variable) == DefaultEnvironment
  }

  /**
   * The settings when ENVIRONMENT and API_KEY are taken from the given
   * environment variables and every other field keeps its default.
   */
  function DefaultSettings(environment: Option<string>, apiKey: Option<string>): (s: Settings)
    ensures s.developmentMode <==> environment.None? || environment == Some("development")
    ensures s.environment == Environment(environment) && (environment.Some? ==> s.environment == environment.value)
    ensures apiKey.None? ==> s.apiKey == ""
    ensures apiKey.Some? ==> s.apiKey == apiKey.value
    ensures s.apiKeyHeader == "X-API-Key" && s.maxRequestSize == 1048576 && s.maxQuestionLength == 500
  {
    Settings(Environment(environment), DevelopmentMode(environment), apiKey.GetOr(DefaultApiKey),
             DefaultApiKeyHeader, DefaultMaxRequestSize, DefaultMaxQuestionLength)
  }

  /**
   * One element of a parsed JSON array, as the validator sees it: its Python
   * truth value and what str() makes of it.
   */
  datatype JsonItem = JsonItem(truthy: bool, text: string)

  /** A JSON string element: falsy exactly when empty, and str() is the string itself. */
  function StringItem(s: string): (item: JsonItem)
    ensures item.truthy <==> |s| > 0
  {
    JsonItem(s != "", s)
  }

  /**
   * What json.loads does with a string: returns a list, returns some other
   * value, raises a decoding error, or raises anything else (a recursion
   * error on deep nesting, say).
   */
  datatype JsonParse = JsonList(items: seq<JsonItem>) | JsonNotList | JsonDecodeError | JsonRaised

  /** Surrounding whitespace off, then surrounding double quotes, then surrounding single quotes. */
  function CleanValue(v: string): string
  {
    Strip(Strip(Strip(v, Whitespace), {'"'}), {'\''})
  }

  predicate IsBracketed(c: string)
  {
    |c| > 0 && c[0] == '[' && c[|c| - 1] == ']'
  }

  /** Each piece with surrounding whitespace stripped: a list comprehension over strip(). */
  function TrimAll(pieces: seq<string>): seq<string>
  {
    seq(|pieces|, k requires 0 <= k < |pieces| => Strip(pieces[k], Whitespace))
  }

  /** The non-empty strings of xs, in order: a list comprehension filtering on truthiness. */
  function DropEmpty(xs: seq<string>): (r: seq<string>)
    ensures |r| <= |xs|
    ensures forall k :: 0 <= k < |r| ==> r[k] != []
  {
    if xs == [] then []
    else
      var rest := DropEmpty(xs[1..]);
      if xs[0] == [] then rest else [xs[0]] + rest
  }

  /**
   * DropEmpty works string by string: filtering a concatenation concatenates
   * the filtered parts. With DropEmptySingle this fixes the result: every
   * non-empty string is kept, in input order, and only those.
   */
  lemma {:induction false} DropEmptyAppend(xs: seq<string>, ys: seq<string>)
    ensures DropEmpty(xs + ys) == DropEmpty(xs) + DropEmpty(ys)
  {
    if xs == [] {
      assert xs + ys == ys;
    } else {
      assert (xs + ys)[1..] == xs[1..] + ys;
      DropEmptyAppend(xs[1..], ys);
    }
  }

  /** One string is kept exactly when it is non-empty. */
  lemma DropEmptySingle(x: string)
    ensures DropEmpty([x]) == if x == [] then [] else [x]
  {
  }

  /** DropEmpty leaves nothing exactly when every string is empty. */
  lemma {:induction false} DropEmptyNothingLeft(xs: seq<string>)
    ensures DropEmpty(xs) == [] <==> forall k :: 0 <= k < |xs| ==> xs[k] == []
  {
    if xs != [] {
      DropEmptyNothingLeft(xs[1..]);
      assert forall k :: 1 <= k < |xs| ==> xs[k] == xs[1..][k - 1];
    }
  }

  /** A non-empty first or last string stays first or last. */
  lemma {:induction false} DropEmptyEnds(xs: seq<string>)
    requires xs != []
    ensures xs[0] != [] ==> DropEmpty(xs) != [] && DropEmpty(xs)[0] == xs[0]
    ensures xs[|xs| - 1] != [] ==> DropEmpty(xs) != [] && DropEmpty(xs)[|DropEmpty(xs)| - 1] == xs[|xs| - 1]
  {
    if |xs| > 1 {
      DropEmptyEnds(xs[1..]);
    }
  }

  lemma {:induction false} DropEmptyKeepsCommaFree(xs: seq<string>)
    requires forall k :: 0 <= k < |xs| ==> ',' !in xs[k]
    ensures forall k :: 0 <= k < |DropEmpty(xs)| ==> ',' !in DropEmpty(xs)[k]
  {
    if xs != [] {
      DropEmptyKeepsCommaFree(xs[1..]);
    }
  }

  /**
   * The comma path: split on every comma, trim, drop empty pieces, and fall
   * back to the default origin when nothing is left.
   */
  function CommaOrigins(c: string): (r: seq<string>)
    ensures r != []
  {
    var origins := DropEmpty(TrimAll(Split(c, ',')));
    if origins == [] then [DefaultOrigin] else origins
  }

  /** Every origin of the comma path is non-empty and free of commas. */
  lemma CommaOriginsAreClean(c: string)
    ensures forall k :: 0 <= k < |CommaOrigins(c)| ==> CommaOrigins(c)[k] != [] && ',' !in CommaOrigins(c)[k]
  {
    var pieces := Split(c, ',');
    var trimmed := TrimAll(pieces);
    SplitPiecesAvoidSeparator(c, ',');
    forall k | 0 <= k < |trimmed| ensures ',' !in trimmed[k] {
      StripIsSubsequence(pieces[k], Whitespace);
      SubsequenceMembers(trimmed[k], pieces[k]);
    }
    DropEmptyKeepsCommaFree(trimmed);
    DefaultOriginHasNoComma();
  }

  /** The JSON path: the truthy elements, stringified and stripped, in order. */
  function JsonOrigins(items: seq<JsonItem>): (r: seq<string>)
    ensures |r| <= |items|
    ensures forall k :: 0 <= k < |r| ==> r[k] == [] || (r[k][0] !in Whitespace && r[k][|r[k]| - 1] !in Whitespace)
  {
    if items == [] then []
    else
      var head := if items[0].truthy then [Strip(items[0].text, Whitespace)] else [];
      StripEnds(items[0].text, Whitespace);
      head + JsonOrigins(items[1..])
  }

  /**
   * The JSON path works element by element: the origins of a concatenation
   * are the origins of its parts, in order. With JsonOriginsSingle this
   * fixes the result: every truthy element, stripped, in input order.
   */
  lemma {:induction false} JsonOriginsAppend(xs: seq<JsonItem>, ys: seq<JsonItem>)
    ensures JsonOrigins(xs + ys) == JsonOrigins(xs) + JsonOrigins(ys)
  {
    if xs == [] {
      assert xs + ys == ys;
    } else {
      assert (xs + ys)[1..] == xs[1..] + ys;
      JsonOriginsAppend(xs[1..], ys);
    }
  }

  /** One element gives its stripped str() when truthy, and nothing otherwise. */
  lemma JsonOriginsSingle(x: JsonItem)
    ensures JsonOrigins([x]) == if x.truthy then [Strip(x.text, Whitespace)] else []
  {
  }

  /** The items of a JSON array of strings. */
  function StringItems(ss: seq<string>): (items: seq<JsonItem>)
    ensures |items| == |ss|
  {
    seq(|ss|, k requires 0 <= k < |ss| => StringItem(ss[k]))
  }

  /**
   * For a JSON array of strings the JSON path drops the empty strings first and
   * strips the rest afterwards, the reverse of the comma path's order.
   */
  lemma {:induction false} JsonStringOrigins(ss: seq<string>)
    ensures JsonOrigins(StringItems(ss)) == TrimAll(DropEmpty(ss))
  {
    if ss != [] {
      JsonStringOrigins(ss[1..]);
      assert StringItems(ss)[1..] == StringItems(ss[1..]);
      if ss[0] != [] {
        TrimAllCons(ss[0], DropEmpty(ss[1..]));
      }
    }
  }

  /** TrimAll works element by element. */
  lemma TrimAllCons(x: string, xs: seq<string>)
    ensures TrimAll([x] + xs) == [Strip(x, Whitespace)] + TrimAll(xs)
  {
  }

  /**
   * The CORS_ORIGINS validator. loads stands for json.loads. A JSON array
   * yields its origins, possibly none; anything else yields a non-empty list.
   */
  function ParseCorsOrigins(v: string, loads: string -> JsonParse): (r: seq<string>)
    ensures v == "" ==> r == [DefaultOrigin]
    ensures r == [] ==> IsBracketed(CleanValue(v)) && loads(CleanValue(v)).JsonList?
  {
    if v == "" then [DefaultOrigin]
    else
      var c := CleanValue(v);
      if IsBracketed(c) then
        match loads(c)
        case JsonList(items) => JsonOrigins(items)
        case JsonRaised => [DefaultOrigin]
        case _ => CommaOrigins(c)
      else CommaOrigins(c)
  }

  /** A value that does not look like a JSON array yields non-empty, comma-free origins. */
  lemma UnbracketedOriginsAreClean(v: string, loads: string -> JsonParse)
    requires !IsBracketed(CleanValue(v))
    ensures var r := ParseCorsOrigins(v, loads);
      r != [] && forall k :: 0 <= k < |r| ==> r[k] != [] && ',' !in r[k]
  {
    DefaultOriginHasNoComma();
    CommaOriginsAreClean(CleanValue(v));
  }

  lemma DefaultOriginHasNoComma()
    ensures DefaultOrigin != [] && ',' !in DefaultOrigin
  {
    assert forall k :: 0 <= k < |DefaultOrigin| ==> DefaultOrigin[k] != ',';
  }

  /** "[]" parses as an empty JSON array, so it allows no origin at all. */
  lemma EmptyJsonArrayGivesNoOrigins(v: string, loads: string -> JsonParse)
    requires |v| == 2 && v[0] == '[' && v[1] == ']'
    requires loads(v) == JsonList([])
    ensures ParseCorsOrigins(v, loads) == []
  {
    BracketsAreNotSpace();
    StripKeepsEnds(v, Whitespace);
    StripKeepsEnds(v, {'"'});
    StripKeepsEnds(v, {'\''});
    var c := CleanValue(v);
    assert c == v && IsBracketed(c);
    assert loads(c) == JsonList([]);
  }

  /**
   * A JSON string that is blank but not empty passes the truthiness test
   * before it is stripped, so it yields an empty origin.
   */
  lemma JsonBlankStringGivesEmptyOrigin(v: string, loads: string -> JsonParse)
    requires v != "" && IsBracketed(CleanValue(v))
    requires loads(CleanValue(v)) == JsonList([StringItem(" ")])
    ensures ParseCorsOrigins(v, loads) == [""]
  {
    assert Strip(" ", Whitespace) == "";
  }

  /**
   * A bracketed value that is not a JSON list is split on commas as it stands,
   * so the brackets end up inside the first and the last origin.
   */
  lemma MalformedJsonKeepsBrackets(v: string, loads: string -> JsonParse)
    requires v != "" && IsBracketed(CleanValue(v))
    requires loads(CleanValue(v)) == JsonDecodeError || loads(CleanValue(v)) == JsonNotList
    ensures var r := ParseCorsOrigins(v, loads);
      r == CommaOrigins(CleanValue(v)) && StartsWith(r[0], '[') && EndsWith(r[|r| - 1], ']')
  {
    CommaSplitKeepsBrackets(CleanValue(v));
  }

  /** Comma-splitting a bracketed string leaves '[' at the start of the first origin and ']' at the end of the last. */
  lemma CommaSplitKeepsBrackets(c: string)
    requires IsBracketed(c)
    ensures var r := CommaOrigins(c); StartsWith(r[0], '[') && EndsWith(r[|r| - 1], ']')
  {
    var pieces := Split(c, ',');
    var first, last := pieces[0], pieces[|pieces| - 1];
    assert StartsWith(first, '[') by {
      SplitFirstPiece(c, ',');
    }
    assert EndsWith(last, ']') by {
      SplitLastPiece(c, ',');
    }
    var trimmed := TrimAll(pieces);
    assert StartsWith(trimmed[0], '[') by {
      BracketsAreNotSpace();
      StripKeepsEnds(first, Whitespace);
    }
    assert EndsWith(trimmed[|trimmed| - 1], ']') by {
      BracketsAreNotSpace();
      StripKeepsEnds(last, Whitespace);
    }
    DropEmptyEnds(trimmed);
  }

  lemma BracketsAreNotSpace()
    ensures '[' !in Whitespace && ']' !in Whitespace
  {
  }

  /** Splitting a comma-joined list of comma-free pieces gives the pieces back. */
  lemma {:induction false} SplitJoin(pieces: seq<string>)
    requires |pieces| >= 1
    requires forall k :: 0 <= k < |pieces| ==> ',' !in pieces[k]
    ensures Split(Join(pieces, ","), ',') == pieces
  {
    if |pieces| > 1 {
      var rest := Join(pieces[1..], ",");
      var s := pieces[0] + [','] + rest;
      assert Join(pieces, ",") == s;
      assert s[..|pieces[0]|] == pieces[0];
      assert s[|pieces[0]|] == ',';
      assert FirstIndex(s, ',') == Some(|pieces[0]|);
      assert s[|pieces[0]| + 1..] == rest;
      SplitJoin(pieces[1..]);
    }
  }

  /** Strings without surrounding whitespace survive TrimAll unchanged. */
  lemma TrimAllKeepsClean(xs: seq<string>)
    requires forall k :: 0 <= k < |xs| ==> xs[k] != [] && xs[k][0] !in Whitespace && xs[k][|xs[k]| - 1] !in Whitespace
    ensures TrimAll(xs) == xs
  {
    forall k | 0 <= k < |xs| ensures TrimAll(xs)[k] == xs[k] {
      StripKeepsEnds(xs[k], Whitespace);
    }
  }

  /** Strings that are all non-empty survive DropEmpty unchanged. */
  lemma {:induction false} DropEmptyKeepsNonEmpty(xs: seq<string>)
    requires forall k :: 0 <= k < |xs| ==> xs[k] != []
    ensures DropEmpty(xs) == xs
  {
    if xs != [] {
      DropEmptyKeepsNonEmpty(xs[1..]);
    }
  }

  /**
   * Round trip: a non-empty list of clean origins, written comma-separated
   * and not looking like a quoted or bracketed value, is parsed back to itself.
   */
  lemma CommaListRoundTrip(origins: seq<string>, loads: string -> JsonParse)
    requires origins != []
    requires forall k :: 0 <= k < |origins| ==>
      origins[k] != [] && ',' !in origins[k] && origins[k][0] !in Whitespace && origins[k][|origins[k]| - 1] !in Whitespace
    requires origins[0][0] !in {'"', '\'', '['}
    requires origins[|origins| - 1][|origins[|origins| - 1]| - 1] !in {'"', '\''}
    ensures ParseCorsOrigins(Join(origins, ","), loads) == origins
  {
    var v := Join(origins, ",");
    JoinEnds(origins, ",");
    StripKeepsEnds(v, Whitespace);
    StripKeepsEnds(v, {'"'});
    StripKeepsEnds(v, {'\''});
    assert CleanValue(v) == v;
    CommaOriginsOfJoin(origins);
  }

  /** The comma path gives back a list of clean origins joined with commas. */
  lemma CommaOriginsOfJoin(origins: seq<string>)
    requires origins != []
    requires forall k :: 0 <= k < |origins| ==>
      origins[k] != [] && ',' !in origins[k] && origins[k][0] !in Whitespace && origins[k][|origins[k]| - 1] !in Whitespace
    ensures CommaOrigins(Join(origins, ",")) == origins
  {
    SplitJoin(origins);
    TrimAllKeepsClean(origins);
    DropEmptyKeepsNonEmpty(origins);
  }
}
