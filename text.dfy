/**
 * The handful of Python string operations the backend relies on, on
 * strings as sequences of characters: str.strip, str.split with a one-character
 * separator, str.join, and the search for the first occurrence of a character.
 * Also the subsequence relation, used to say that a transformation only deletes.
 */
module Text {
  import opened Wrappers

  /** The characters for which Python's str.isspace holds: what str.strip() removes by default. */
  predicate IsSpace(c: char)
  {
    c == ' ' || '\t' <= c <= '\r' || '\U{1C}' <= c <= '\U{1F}' || c == '\U{85}' || c == '\U{A0}' || c == '\U{1680}'
    || '\U{2000}' <= c <= '\U{200A}' || c == '\U{2028}' || c == '\U{2029}' || c == '\U{202F}' || c == '\U{205F}'
    || c == '\U{3000}'
  }

  const Whitespace: set<char> := set c: char | c <= '\U{3000}' && IsSpace(c)

  /** Removes the characters of cs from the start of s. */
  function TrimStart(s: string, cs: set<char>): (r: string)
    ensures |r| <= |s|
  {
    if s != [] && s[0] in cs then TrimStart(s[1..], cs) else s
  }

  /** Removes the characters of cs from the end of s. */
  function TrimEnd(s: string, cs: set<char>): (r: string)
    ensures |r| <= |s|
  {
    if s != [] && s[|s| - 1] in cs then TrimEnd(s[..|s| - 1], cs) else s
  }

  /**
   * TrimStart returns a suffix of s that does not start with a character of cs,
   * and every character it removes is in cs.
   */
  lemma {:induction false} TrimStartSpec(s: string, cs: set<char>)
    ensures var r := TrimStart(s, cs);
      r == s[|s| - |r|..] && (r != [] ==> r[0] !in cs) && forall k :: 0 <= k < |s| - |r| ==> s[k] in cs
  {
    if s != [] && s[0] in cs {
      TrimStartSpec(s[1..], cs);
      assert forall k :: 1 <= k < |s| ==> s[k] == s[1..][k - 1];
    }
  }

  /**
   * TrimEnd returns a prefix of s that does not end with a character of cs,
   * and every character it removes is in cs.
   */
  lemma {:induction false} TrimEndSpec(s: string, cs: set<char>)
    ensures var r := TrimEnd(s, cs);
      r == s[..|r|] && (r != [] ==> r[|r| - 1] !in cs) && forall k :: |r| <= k < |s| ==> s[k] in cs
  {
    if s != [] && s[|s| - 1] in cs {
      TrimEndSpec(s[..|s| - 1], cs);
    }
  }

  /** Python's s.strip(chars), with Whitespace for the argument-less form. */
  function Strip(s: string, cs: set<char>): (r: string)
    ensures |r| <= |s|
  {
    TrimEnd(TrimStart(s, cs), cs)
  }

  /** Strip returns a slice of s: what lies between the characters it removes from either end. */
  lemma StripIsSlice(s: string, cs: set<char>)
    ensures var r := Strip(s, cs); var i := |s| - |TrimStart(s, cs)|;
      i + |r| <= |s| && r == s[i..i + |r|]
  {
    var t := TrimStart(s, cs);
    TrimStartSpec(s, cs);
    TrimEndSpec(t, cs);
  }

  /** Neither end of a stripped string is in cs. */
  lemma StripEnds(s: string, cs: set<char>)
    ensures var r := Strip(s, cs); r != [] ==> r[0] !in cs && r[|r| - 1] !in cs
  {
    var t := TrimStart(s, cs);
    TrimStartSpec(s, cs);
    TrimEndSpec(t, cs);
  }

  /** Every character Strip removes, from either end, is in cs. */
  lemma StripRemovesOnly(s: string, cs: set<char>)
    ensures var r := Strip(s, cs); var i := |s| - |TrimStart(s, cs)|;
      (forall k :: 0 <= k < i ==> s[k] in cs) && (forall k :: i + |r| <= k < |s| ==> s[k] in cs)
  {
    var t := TrimStart(s, cs);
    var i := |s| - |t|;
    TrimStartSpec(s, cs);
    TrimEndSpec(t, cs);
    assert forall k :: i <= k < |s| ==> s[k] == t[k - i];
  }

  /**
   * Strip removes only characters of cs, and only at the ends: a first or last
   * character outside cs survives in place, and a string with both ends
   * outside cs is returned unchanged.
   */
  lemma StripKeepsEnds(s: string, cs: set<char>)
    requires s != []
    ensures s[0] !in cs ==> Strip(s, cs) != [] && Strip(s, cs)[0] == s[0]
    ensures s[|s| - 1] !in cs ==> Strip(s, cs) != [] && Strip(s, cs)[|Strip(s, cs)| - 1] == s[|s| - 1]
    ensures s[0] !in cs && s[|s| - 1] !in cs ==> Strip(s, cs) == s
  {
    StripIsSlice(s, cs);
    StripRemovesOnly(s, cs);
  }

  /** Strip gives the empty string exactly when every character is in cs. */
  lemma StripEmpty(s: string, cs: set<char>)
    ensures Strip(s, cs) == [] <==> forall k :: 0 <= k < |s| ==> s[k] in cs
  {
    StripIsSlice(s, cs);
    StripRemovesOnly(s, cs);
    StripEnds(s, cs);
  }

  /** The index of the first occurrence of c in s, if any. */
  function FirstIndex(s: string, c: char): (r: Option<nat>)
    ensures r.None? <==> c !in s
    ensures r.Some? ==> r.value < |s| && s[r.value] == c && c !in s[..r.value]
  {
    if s == [] then None
    else if s[0] == c then Some(0)
    else
      match FirstIndex(s[1..], c)
      case None => None
      case Some(i) =>
        assert s[..i + 1] == [s[0]] + s[1..][..i];
        Some(i + 1)
  }

  /**
   * Python's s.split(sep) for a one-character separator: the pieces between
   * consecutive separators, always at least one.
   */
  function Split(s: string, sep: char): (r: seq<string>)
    ensures |r| >= 1
    decreases |s|
  {
    match FirstIndex(s, sep)
    case None => [s]
    case Some(i) => [s[..i]] + Split(s[i + 1..], sep)
  }

  /** No piece of a split contains the separator. */
  lemma {:induction false} SplitPiecesAvoidSeparator(s: string, sep: char)
    ensures forall k :: 0 <= k < |Split(s, sep)| ==> sep !in Split(s, sep)[k]
    decreases |s|
  {
    match FirstIndex(s, sep)
    case None =>
    case Some(i) =>
      SplitPiecesAvoidSeparator(s[i + 1..], sep);
  }

  /**
   * The first piece of a split is the prefix of s before its first separator:
   * a prefix of s, followed by the separator whenever it is not all of s.
   */
  lemma SplitFirstPiece(s: string, sep: char)
    ensures var first := Split(s, sep)[0];
      |first| <= |s| && first == s[..|first|] && (|first| < |s| ==> s[|first|] == sep)
  {
  }

  /** Python's sep.join(pieces). */
  function Join(pieces: seq<string>, sep: string): string
  {
    if |pieces| == 0 then ""
    else if |pieces| == 1 then pieces[0]
    else pieces[0] + sep + Join(pieces[1..], sep)
  }

  /** No pieces join to "", and a single piece joins to itself: JoinAppend builds every other case from this one. */
  lemma JoinSingle(x: string, sep: string)
    ensures Join([], sep) == "" && Join([x], sep) == x
  {
  }

  /** The sum of the lengths of the pieces. */
  function TotalLength(pieces: seq<string>): nat
  {
    if pieces == [] then 0 else |pieces[0]| + TotalLength(pieces[1..])
  }

  /** Joining with sep adds one sep between each pair of neighbouring pieces. */
  lemma {:induction false} JoinLength(pieces: seq<string>, sep: string)
    requires |pieces| >= 1
    ensures |Join(pieces, sep)| == TotalLength(pieces) + |sep| * (|pieces| - 1)
  {
    if |pieces| > 1 {
      JoinLength(pieces[1..], sep);
    }
  }

  /** Appending a piece appends a separator and that piece: Join keeps the order of its input. */
  lemma {:induction false} JoinAppend(pieces: seq<string>, last: string, sep: string)
    requires |pieces| >= 1
    ensures Join(pieces + [last], sep) == Join(pieces, sep) + sep + last
  {
    if |pieces| > 1 {
      assert (pieces + [last])[1..] == pieces[1..] + [last];
      JoinAppend(pieces[1..], last, sep);
    }
  }

  /** A join starts with the first piece's first character and ends with the last piece's last one. */
  lemma {:induction false} JoinEnds(pieces: seq<string>, sep: string)
    requires |pieces| >= 1 && pieces[|pieces| - 1] != []
    ensures var r := Join(pieces, sep); var last := pieces[|pieces| - 1];
      r != [] && r[|r| - 1] == last[|last| - 1] && (pieces[0] != [] ==> r[0] == pieces[0][0])
  {
    if |pieces| > 1 {
      JoinEnds(pieces[1..], sep);
    }
  }

  /** Splitting on a character and joining with it gives back the original string. */
  lemma {:induction false} JoinSplit(s: string, sep: char)
    ensures Join(Split(s, sep), [sep]) == s
    decreases |s|
  {
    match FirstIndex(s, sep)
    case None =>
    case Some(i) =>
      var rest := Split(s[i + 1..], sep);
      JoinSplit(s[i + 1..], sep);
      assert Split(s, sep) == [s[..i]] + rest;
      assert ([s[..i]] + rest)[1..] == rest;
      assert s == s[..i] + [sep] + s[i + 1..];
  }

  /** When s does not end with the separator, its last piece is non-empty and ends as s does. */
  lemma {:induction false} SplitLastPiece(s: string, sep: char)
    requires s != [] && s[|s| - 1] != sep
    ensures var r := Split(s, sep); var last := r[|r| - 1];
      last != [] && last[|last| - 1] == s[|s| - 1]
    decreases |s|
  {
    match FirstIndex(s, sep)
    case None =>
    case Some(i) =>
      var tail := s[i + 1..];
      assert tail[|tail| - 1] == s[|s| - 1];
      SplitLastPiece(tail, sep);
      assert Split(s, sep) == [s[..i]] + Split(tail, sep);
  }

  /** x is non-empty and starts with c. */
  predicate StartsWith(x: string, c: char)
  {
    x != [] && x[0] == c
  }

  /** x is non-empty and ends with c. */
  predicate EndsWith(x: string, c: char)
  {
    x != [] && x[|x| - 1] == c
  }

  /** a can be obtained from b by deleting characters. */
  predicate IsSubsequence(a: string, b: string)
    decreases |b|
  {
    a == [] || (b != [] && ((a[0] == b[0] && IsSubsequence(a[1..], b[1..])) || IsSubsequence(a, b[1..])))
  }

  lemma {:induction false} SubsequenceReflexive(a: string)
    ensures IsSubsequence(a, a)
  {
    if a != [] {
      SubsequenceReflexive(a[1..]);
    }
  }

  lemma {:induction false} SubsequenceTransitive(a: string, b: string, c: string)
    requires IsSubsequence(a, b) && IsSubsequence(b, c)
    ensures IsSubsequence(a, c)
    decreases |c|
  {
    if a != [] {
      assert b != [] && c != [];
      if b[0] == c[0] && IsSubsequence(b[1..], c[1..]) {
        if a[0] == b[0] && IsSubsequence(a[1..], b[1..]) {
          SubsequenceTransitive(a[1..], b[1..], c[1..]);
        } else {
          SubsequenceTransitive(a, b[1..], c[1..]);
        }
      } else {
        SubsequenceTransitive(a, b, c[1..]);
      }
    }
  }

  /** Every suffix s[i..] is a subsequence of s. */
  lemma {:induction false} SuffixIsSubsequence(s: string, i: nat)
    requires i <= |s|
    ensures IsSubsequence(s[i..], s)
    decreases i
  {
    if i == 0 {
      SubsequenceReflexive(s);
    } else {
      SuffixIsSubsequence(s[1..], i - 1);
      assert s[1..][i - 1..] == s[i..];
    }
  }

  /** Every prefix s[..n] is a subsequence of s. */
  lemma {:induction false} PrefixIsSubsequence(s: string, n: nat)
    requires n <= |s|
    ensures IsSubsequence(s[..n], s)
  {
    if n > 0 {
      PrefixIsSubsequence(s[1..], n - 1);
      assert s[..n][1..] == s[1..][..n - 1];
    }
  }

  /** Every character of a subsequence is a character of the whole. */
  lemma {:induction false} SubsequenceMembers(a: string, b: string)
    requires IsSubsequence(a, b)
    ensures forall x :: x in a ==> x in b
    decreases |b|
  {
    if a != [] {
      assert forall x :: x in b[1..] ==> x in b;
      if a[0] == b[0] && IsSubsequence(a[1..], b[1..]) {
        SubsequenceMembers(a[1..], b[1..]);
        assert forall x :: x in a ==> x == a[0] || x in a[1..];
      } else {
        SubsequenceMembers(a, b[1..]);
      }
    }
  }

  /** What Strip returns is a subsequence of its argument. */
  lemma StripIsSubsequence(s: string, cs: set<char>)
    ensures IsSubsequence(Strip(s, cs), s)
  {
    var t := TrimStart(s, cs);
    var r := TrimEnd(t, cs);
    TrimStartSpec(s, cs);
    TrimEndSpec(t, cs);
    PrefixIsSubsequence(t, |r|);
    SuffixIsSubsequence(s, |s| - |t|);
    SubsequenceTransitive(r, t, s);
  }
}
