/**
 * The backend's request gatekeeper and its input sanitiser.
 *
 * The gatekeeper is the decision the security middleware takes for each
 * request before handing it on: reject it as too large, reject it for a
 * missing or wrong API key, fail with an internal error, or forward it.
 * The sanitiser is the fixed pipeline applied to a question's text.
 */
module Security {
  import opened Wrappers
  import opened Text
  import opened Config

  // ---------------------------------------------------------------------
  // The gatekeeper
  // ---------------------------------------------------------------------

  /** The path of the health endpoint, which needs no API key. */
  const HealthPath := "/"

  /** 413 Content Too Large, section 15.5.14 of RFC 9110. */
  const StatusContentTooLarge := 413
  /** 401 Unauthorized, section 15.5.2 of RFC 9110. */
  const StatusUnauthorized := 401
  /** 500 Internal Server Error, section 15.6.1 of RFC 9110. */
  const StatusInternalError := 500

  /**
   * A Content-Length header as received, with what Python's int() makes of
   * it: None when int() raises.
   */
  datatype ContentLength = ContentLength(raw: string, asInt: Option<int>)

  /**
   * What the middleware reads from a request: the URL path, the
   * Content-Length header if any, and the header named by the API_KEY_HEADER
   * setting if any.
   */
  datatype Request = Request(path: string, contentLength: Option<ContentLength>, apiKey: Option<string>)

  /** The middleware's verdict on a request. */
  datatype Decision =
    | Forward
    | TooLarge(maxSize: int, requestedSize: int)
    | MissingKey(header: string)
    | InvalidKey(header: string)
    | InternalError

  /** A Content-Length header is only examined when present and non-empty. */
  predicate HasLength(req: Request)
  {
    req.contentLength.Some? && req.contentLength.value.raw != []
  }

  /** The header is examined and int() raises on it. */
  predicate LengthUnreadable(req: Request)
  {
    HasLength(req) && req.contentLength.value.asInt.None?
  }

  /** The header is examined and states more bytes than the limit allows. */
  predicate LengthExceeds(req: Request, s: Settings)
  {
    HasLength(req) && req.contentLength.value.asInt.Some? && req.contentLength.value.asInt.value > s.maxRequestSize
  }

  /**
   * The decision the middleware takes. The size check comes first, then the
   * two bypasses (health path, development mode), then the key check. A
   * non-numeric Content-Length makes int() raise inside the try block; the
   * generic handler turns that into an internal error.
   */
  function Dispatch(req: Request, s: Settings): (d: Decision)
    ensures d.TooLarge? ==> d.maxSize == s.maxRequestSize < d.requestedSize
    ensures d.MissingKey? || d.InvalidKey? ==> d.header == s.apiKeyHeader
  {
    if LengthUnreadable(req) then InternalError
    else if LengthExceeds(req, s) then TooLarge(s.maxRequestSize, req.contentLength.value.asInt.value)
    else if req.path == HealthPath || s.developmentMode then Forward
    else if req.apiKey.None? || req.apiKey.value == [] then MissingKey(s.apiKeyHeader)
    else if req.apiKey.value != s.apiKey then InvalidKey(s.apiKeyHeader)
    else Forward
  }

  /** The HTTP status of a rejection: 413 for size, 401 for both key failures, 500 otherwise. */
  function Status(d: Decision): (code: int)
    requires !d.Forward?
    ensures code == StatusContentTooLarge <==> d.TooLarge?
    ensures code == StatusUnauthorized <==> d.MissingKey? || d.InvalidKey?
    ensures code == StatusInternalError <==> d.InternalError?
  {
    match d
    case TooLarge(_, _) => StatusContentTooLarge
    case MissingKey(_) => StatusUnauthorized
    case InvalidKey(_) => StatusUnauthorized
    case InternalError => StatusInternalError
  }

  /** The "error" field of a rejection's detail. */
  function ErrorText(d: Decision): string
    requires !d.Forward?
  {
    match d
    case TooLarge(_, _) => "Request too large"
    case MissingKey(_) => "API key is required"
    case InvalidKey(_) => "Invalid API key"
    case InternalError => "Internal server error"
  }

  /**
   * An oversized body is rejected whatever the path, the mode or the key:
   * the size check runs before both bypasses, and the detail carries the
   * limit and the declared size.
   */
  lemma OversizeRejectedBeforeBypasses(req: Request, s: Settings, n: int)
    requires req.contentLength.Some? && req.contentLength.value.raw != []
    requires req.contentLength.value.asInt == Some(n) && n > s.maxRequestSize
    ensures forall path, key :: Dispatch(Request(path, req.contentLength, key), s) == TooLarge(s.maxRequestSize, n)
    ensures Status(Dispatch(req, s)) == 413 && ErrorText(Dispatch(req, s)) == "Request too large"
  {
  }

  /** A Content-Length that int() rejects makes the middleware answer 500, on every path. */
  lemma UnreadableLengthIsInternalError(req: Request, s: Settings)
    requires req.contentLength.Some? && req.contentLength.value.raw != [] && req.contentLength.value.asInt.None?
    ensures Dispatch(req, s) == InternalError && Status(Dispatch(req, s)) == 500
    ensures ErrorText(Dispatch(req, s)) == "Internal server error"
  {
  }

  /** The health path and development mode forward without consulting the key header. */
  lemma BypassesIgnoreKey(req: Request, s: Settings, otherKey: Option<string>)
    requires !LengthUnreadable(req) && !LengthExceeds(req, s)
    requires req.path == HealthPath || s.developmentMode
    ensures Dispatch(req, s) == Forward
    ensures Dispatch(req.(apiKey := otherKey), s) == Forward
  {
  }

  /**
   * Outside the bypasses, a missing or empty key header gives 401 "API key is
   * required", a different one gives 401 "Invalid API key", and only the
   * configured key itself is forwarded.
   */
  lemma KeyCheck(req: Request, s: Settings)
    requires !LengthUnreadable(req) && !LengthExceeds(req, s)
    requires req.path != HealthPath && !s.developmentMode
    ensures Dispatch(req, s).MissingKey? <==> req.apiKey.None? || req.apiKey == Some("")
    ensures Dispatch(req, s).InvalidKey? <==> req.apiKey.Some? && req.apiKey.value != "" && req.apiKey.value != s.apiKey
    ensures Dispatch(req, s) == Forward <==> req.apiKey == Some(s.apiKey) && s.apiKey != ""
    ensures !Dispatch(req, s).Forward? ==>
      Status(Dispatch(req, s)) == 401 && Dispatch(req, s) in {MissingKey(s.apiKeyHeader), InvalidKey(s.apiKeyHeader)}
    ensures Dispatch(req, s).MissingKey? ==> ErrorText(Dispatch(req, s)) == "API key is required"
    ensures Dispatch(req, s).InvalidKey? ==> ErrorText(Dispatch(req, s)) == "Invalid API key"
  {
  }

  /** Exactly which requests are forwarded. */
  lemma ForwardedExactly(req: Request, s: Settings)
    ensures Dispatch(req, s) == Forward <==>
      !LengthUnreadable(req) && !LengthExceeds(req, s) &&
      (req.path == HealthPath || s.developmentMode || (req.apiKey == Some(s.apiKey) && s.apiKey != ""))
  {
  }

  /**
   * With API_KEY left empty and development mode off, no request to a path
   * other than the health endpoint is ever forwarded.
   */
  lemma EmptyKeyLocksProtectedRoutes(req: Request, s: Settings)
    requires s.apiKey == "" && !s.developmentMode && req.path != HealthPath
    ensures Dispatch(req, s) != Forward
  {
    ForwardedExactly(req, s);
  }

  /**
   * Under the defaults (ENVIRONMENT unset, so development mode on) every
   * request within the size limit is forwarded, whatever key it carries.
   */
  lemma DefaultSettingsForwardWithinLimit(req: Request, apiKey: Option<string>)
    requires !LengthUnreadable(req) && !LengthExceeds(req, DefaultSettings(None, apiKey))
    ensures Dispatch(req, DefaultSettings(None, apiKey)) == Forward
  {
  }

  // ---------------------------------------------------------------------
  // The sanitiser
  // ---------------------------------------------------------------------

  /** The characters the third substitution deletes. */
  const Denied: set<char> := {'<', '>', '{', '}', '(', ')', '[', ']', '\\', '/'}

  /**
   * The pattern <[^>]+> matches at the start of s: a '<', then at least one
   * character other than '>', up to the first '>'.
   */
  predicate TagAt(s: string)
  {
    |s| >= 2 && s[0] == '<' && s[1] != '>' && '>' in s[2..]
  }

  /** The index of the '>' that closes the tag at the start of s. */
  function TagEnd(s: string): (e: nat)
    requires TagAt(s)
    ensures 2 <= e < |s| && s[e] == '>' && '>' !in s[..e]
  {
    assert '>' in s by {
      assert s[2..] == s[2..|s|];
    }
    var e := FirstIndex(s, '>').value;
    assert e >= 2 by {
      assert s[..e] != [] ==> s[..e][0] == s[0];
    }
    e
  }

  /**
   * Deletes every match of <[^>]+>, as re.sub does: scanning left to right,
   * removing the match starting at the current position if there is one
   * and resuming after it, and otherwise keeping one character.
   */
  function StripTags(s: string): string
    decreases |s|
  {
    if s == [] then []
    else if TagAt(s) then StripTags(s[TagEnd(s) + 1..])
    else [s[0]] + StripTags(s[1..])
  }

  /**
   * A complete match at the start is deleted as a whole: a '<', a non-empty
   * run without '>', and the closing '>' all disappear, and the scan resumes
   * right after them.
   */
  lemma StripTagsDeletesTag(x: string, y: string)
    requires x != [] && '>' !in x
    ensures StripTags(['<'] + x + ['>'] + y) == StripTags(y)
  {
    var s := ['<'] + x + ['>'] + y;
    var n := |x| + 1;
    assert s[..n] == ['<'] + x;
    assert s[n] == '>' && s[n + 1..] == y;
    assert TagAt(s) by {
      assert s[1] == x[0];
      assert s[2..][n - 2] == '>';
    }
    FirstOccurrenceIsUnique(s, '>', TagEnd(s), n);
  }

  /** Two positions of c that each have no c before them are the same position. */
  lemma FirstOccurrenceIsUnique(s: string, c: char, i: nat, j: nat)
    requires i < |s| && j < |s| && s[i] == c && s[j] == c
    requires c !in s[..i] && c !in s[..j]
    ensures i == j
  {
    assert forall k :: 0 <= k < j ==> s[..j][k] == s[k];
    assert forall k :: 0 <= k < i ==> s[..i][k] == s[k];
  }

  /**
   * Where no match starts, the character is kept and the scan moves on by
   * one: a character other than '<', a '<' at the end, a '<' directly
   * followed by '>', or a '<' with no '>' after it (as in "2 < 3").
   */
  lemma StripTagsKeepsNonTag(c: char, y: string)
    requires c != '<' || y == [] || y[0] == '>' || '>' !in y
    ensures StripTags([c] + y) == [c] + StripTags(y)
  {
    var s := [c] + y;
    assert s[1..] == y;
    assert !TagAt(s) by {
      assert |s| >= 2 ==> s[1] == y[0] && s[2..] == y[1..];
      assert y != [] && '>' !in y ==> '>' !in y[1..];
    }
  }

  /** No match of <[^>]+> starts anywhere in s. */
  predicate NoTags(s: string)
    decreases |s|
  {
    s == [] || (!TagAt(s) && NoTags(s[1..]))
  }

  /** StripTags only deletes characters. */
  lemma {:induction false} StripTagsIsSubsequence(s: string)
    ensures IsSubsequence(StripTags(s), s)
    decreases |s|
  {
    if s == [] {
    } else if TagAt(s) {
      var rest := s[TagEnd(s) + 1..];
      StripTagsIsSubsequence(rest);
      assert StripTags(s) == StripTags(rest);
      SubsequenceOfSuffix(StripTags(rest), s, TagEnd(s) + 1);
    } else {
      StripTagsIsSubsequence(s[1..]);
      KeptCharacterIsSubsequence(s);
    }
  }

  /** A subsequence of a suffix of s is a subsequence of s. */
  lemma SubsequenceOfSuffix(r: string, s: string, i: nat)
    requires i <= |s| && IsSubsequence(r, s[i..])
    ensures IsSubsequence(r, s)
  {
    SuffixIsSubsequence(s, i);
    SubsequenceTransitive(r, s[i..], s);
  }

  /** The step of StripTagsIsSubsequence that keeps a character. */
  lemma KeptCharacterIsSubsequence(s: string)
    requires s != [] && !TagAt(s) && IsSubsequence(StripTags(s[1..]), s[1..])
    ensures IsSubsequence(StripTags(s), s)
  {
    var r := StripTags(s);
    assert r[0] == s[0] && r[1..] == StripTags(s[1..]);
  }

  /** A string with no '<' comes through StripTags unchanged. */
  lemma {:induction false} StripTagsWithoutAngle(s: string)
    requires '<' !in s
    ensures StripTags(s) == s
    decreases |s|
  {
    if s != [] {
      assert s[0] != '<' && '<' !in s[1..];
      StripTagsWithoutAngle(s[1..]);
    }
  }

  /** No match of <[^>]+> survives StripTags. */
  lemma {:induction false} StripTagsLeavesNoTag(s: string)
    ensures NoTags(StripTags(s))
    decreases |s|
  {
    if s == [] {
    } else if TagAt(s) {
      StripTagsLeavesNoTag(s[TagEnd(s) + 1..]);
    } else {
      var rest := StripTags(s[1..]);
      var r := StripTags(s);
      StripTagsLeavesNoTag(s[1..]);
      assert r == [s[0]] + rest && r[1..] == rest;
      if s[0] == '<' && |s| >= 2 {
        if s[1] == '>' {
          assert s[1..] != [] && !TagAt(s[1..]);
          assert rest[0] == '>';
        } else {
          assert '>' !in s[1..] by {
            assert s[1..] == [s[1]] + s[2..];
          }
          StripTagsIsSubsequence(s[1..]);
          SubsequenceMembers(rest, s[1..]);
          assert '>' !in r[2..] by {
            assert r[2..] == rest[1..];
          }
        }
      }
    }
  }

  /** In a string with no tags, no suffix starts with one either. */
  lemma {:induction false} NoTagsAt(t: string, k: nat)
    requires NoTags(t) && k < |t|
    ensures !TagAt(t[k..])
    decreases k
  {
    if k > 0 {
      NoTagsAt(t[1..], k - 1);
      assert t[1..][k - 1..] == t[k..];
    }
  }

  /** The closing tag every match of the script-block pattern ends with. */
  const ClosingScriptTag := "</script>"

  /**
   * The script-block substitution can never match after the tag
   * substitution: each of its matches ends in "</script>", which is itself a
   * match of <[^>]+>, and none of those survives. Removing script blocks is
   * therefore the identity on what reaches it.
   */
  lemma NoScriptBlockSurvives(s: string, k: nat)
    requires k + |ClosingScriptTag| <= |StripTags(s)|
    ensures StripTags(s)[k..k + |ClosingScriptTag|] != ClosingScriptTag
  {
    var t := StripTags(s);
    var u := t[k..];
    assert u[..9] == ClosingScriptTag ==> TagAt(u) by {
      if u[..9] == ClosingScriptTag {
        ClosingScriptIsTag(u);
      }
    }
    StripTagsLeavesNoTag(s);
    NoTagsAt(t, k);
    assert u[..9] == t[k..k + 9];
  }

  /** "</script>" is itself a match of <[^>]+>. */
  lemma ClosingScriptIsTag(u: string)
    requires |u| >= 9 && u[..9] == ClosingScriptTag
    ensures TagAt(u)
  {
    assert u[0] == ClosingScriptTag[0] && u[1] == ClosingScriptTag[1];
    assert u[2..][6] == ClosingScriptTag[8];
  }

  /** Deletes every character of Denied. */
  function RemoveDenied(s: string): (r: string)
    ensures forall k :: 0 <= k < |r| ==> r[k] !in Denied
  {
    if s == [] then []
    else if s[0] in Denied then RemoveDenied(s[1..])
    else [s[0]] + RemoveDenied(s[1..])
  }

  /** RemoveDenied keeps every other character, as often as it occurs and in order. */
  lemma {:induction false} RemoveDeniedKeepsOthers(s: string)
    ensures forall c :: c !in Denied ==> multiset(RemoveDenied(s))[c] == multiset(s)[c]
    ensures IsSubsequence(RemoveDenied(s), s)
  {
    if s != [] {
      RemoveDeniedKeepsOthers(s[1..]);
      assert s == [s[0]] + s[1..];
      if s[0] !in Denied {
        var r := RemoveDenied(s);
        assert r[0] == s[0] && r[1..] == RemoveDenied(s[1..]);
      }
    }
  }

  /** A string without denied characters comes through unchanged. */
  lemma {:induction false} RemoveDeniedWithoutDenied(s: string)
    requires forall k :: 0 <= k < |s| ==> s[k] !in Denied
    ensures RemoveDenied(s) == s
  {
    if s != [] {
      RemoveDeniedWithoutDenied(s[1..]);
    }
  }

  /**
   * Python's text[:m] applied when len(text) > m: the first m characters for
   * m >= 0, and for a negative m all but the last -m characters.
   */
  function Truncate(s: string, m: int): (r: string)
    ensures |r| <= |s| && r == s[..|r|]
    ensures m >= 0 ==> |r| == if |s| > m then m else |s|
    ensures m < 0 ==> |r| == if |s| + m >= 0 then |s| + m else 0
  {
    if |s| > m then
      if m >= 0 then s[..m]
      else if |s| + m >= 0 then s[..|s| + m]
      else []
    else s
  }

  /**
   * sanitize_input, with maxLength standing for MAX_QUESTION_LENGTH. The
   * script-block substitution is left out of the pipeline because it is the
   * identity here (NoScriptBlockSurvives).
   */
  function Sanitize(text: string, maxLength: int): (r: string)
    ensures text == [] ==> r == []
    ensures forall k :: 0 <= k < |r| ==> r[k] !in Denied
    ensures maxLength >= 0 ==> |r| <= maxLength
    ensures r != [] ==> r[0] !in Whitespace
  {
    if text == [] then []
    else
      var cleaned := RemoveDenied(StripTags(text));
      var stripped := Strip(cleaned, Whitespace);
      var r := Truncate(stripped, maxLength);
      assert r != [] ==> r[0] == stripped[0];
      StripEnds(cleaned, Whitespace);
      assert forall k :: 0 <= k < |stripped| ==> stripped[k] !in Denied by {
        StripIsSubsequence(cleaned, Whitespace);
        SubsequenceMembers(stripped, cleaned);
        forall k | 0 <= k < |stripped| ensures stripped[k] !in Denied {
          assert stripped[k] in stripped;
          var j :| 0 <= j < |cleaned| && cleaned[j] == stripped[k];
        }
      }
      r
  }

  /** The sanitised text is obtained from the input by deleting characters. */
  lemma SanitizeIsSubsequence(text: string, maxLength: int)
    ensures IsSubsequence(Sanitize(text, maxLength), text)
  {
    if text != [] {
      var tagless := StripTags(text);
      var cleaned := RemoveDenied(tagless);
      var stripped := Strip(cleaned, Whitespace);
      var r := Truncate(stripped, maxLength);
      StripTagsIsSubsequence(text);
      RemoveDeniedKeepsOthers(tagless);
      StripIsSubsequence(cleaned, Whitespace);
      PrefixIsSubsequence(stripped, |r|);
      SubsequenceTransitive(r, stripped, cleaned);
      SubsequenceTransitive(r, cleaned, tagless);
      SubsequenceTransitive(r, tagless, text);
    }
  }

  /**
   * Text with no denied character, no surrounding whitespace and no more
   * than maxLength characters is returned unchanged.
   */
  lemma SanitizeKeepsCleanText(text: string, maxLength: int)
    requires forall k :: 0 <= k < |text| ==> text[k] !in Denied
    requires text != [] ==> text[0] !in Whitespace && text[|text| - 1] !in Whitespace
    requires |text| <= maxLength
    ensures Sanitize(text, maxLength) == text
  {
    if text != [] {
      assert '<' !in text by {
        assert '<' in Denied;
      }
      StripTagsWithoutAngle(text);
      RemoveDeniedWithoutDenied(text);
      StripKeepsEnds(text, Whitespace);
    }
  }

  /** A second pass changes nothing when the first result does not end in whitespace. */
  lemma SanitizeIdempotentWithoutTrailingSpace(text: string, maxLength: int)
    requires maxLength >= 0
    requires var r := Sanitize(text, maxLength); r != [] ==> r[|r| - 1] !in Whitespace
    ensures Sanitize(Sanitize(text, maxLength), maxLength) == Sanitize(text, maxLength)
  {
    SanitizeKeepsCleanText(Sanitize(text, maxLength), maxLength);
  }

  /**
   * A first result ending in whitespace (which only truncation can leave)
   * is changed by a second pass: sanitising is not idempotent.
   */
  lemma TrailingSpaceBreaksIdempotence(text: string, maxLength: int)
    requires var r := Sanitize(text, maxLength); r != [] && r[|r| - 1] in Whitespace
    ensures Sanitize(Sanitize(text, maxLength), maxLength) != Sanitize(text, maxLength)
  {
    var r := Sanitize(text, maxLength);
    assert '<' !in r by {
      assert '<' in Denied;
    }
    StripTagsWithoutAngle(r);
    RemoveDeniedWithoutDenied(r);
    var stripped := Strip(r, Whitespace);
    assert |stripped| < |r| by {
      StripIsSlice(r, Whitespace);
      StripEnds(r, Whitespace);
    }
    assert |Sanitize(r, maxLength)| <= |stripped|;
  }

  /** "a b" with a limit of two characters sanitises to "a ", which a second pass turns into "a". */
  lemma TruncationWitness(text: string)
    requires |text| == 3 && text[0] == 'a' && text[1] == ' ' && text[2] == 'b'
    ensures var r := Sanitize(text, 2); |r| == 2 && r[0] == 'a' && r[1] == ' '
    ensures Sanitize(Sanitize(text, 2), 2) != Sanitize(text, 2)
  {
    assert forall k :: 0 <= k < |text| ==> text[k] !in Denied;
    assert '<' !in text;
    StripTagsWithoutAngle(text);
    RemoveDeniedWithoutDenied(text);
    assert 'a' !in Whitespace && 'b' !in Whitespace && ' ' in Whitespace;
    StripKeepsEnds(text, Whitespace);
    TrailingSpaceBreaksIdempotence(text, 2);
  }
}
