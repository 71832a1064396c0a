/** Option and Outcome: absent values (JavaScript `undefined`/`null`, Python
    `None`, a missing dictionary key) and the success or failure of an
    external call. */
module Wrappers {

  datatype Option<+T> = None | Some(value: T) {
    function GetOr(default: T): T {
      match this
      case Some(v) => v
      case None => default
    }
  }

  /** The result of an awaited call whose value is not used: it resolved, or
      it rejected with an error value. */
  datatype Outcome<+E> = Pass | Fail(error: E)
}

/** The enumerations shared by the client and the server. */
module Choices {

  /** The three-valued sentiment of a comment or an aspect. */
  datatype Sentiment = Positive | Neutral | Negative

  /** The review status of a post; a new post is unreviewed. */
  datatype Status = Unreviewed | Reviewed

  const DefaultStatus: Status := Unreviewed
}

/** String operations of JavaScript and Python that the core relies on. */
module Text {

  /** The characters JavaScript's String.prototype.trim removes: the
      WhiteSpace and LineTerminator code points of ECMAScript. */
  predicate IsWhitespace(c: char) {
    || c == '\t' || c == '\n' || c == '\U{000B}' || c == '\U{000C}' || c == '\r'
    || c == ' ' || c == '\U{00A0}' || c == '\U{1680}'
    || ('\U{2000}' <= c <= '\U{200A}')
    || c == '\U{2028}' || c == '\U{2029}' || c == '\U{202F}' || c == '\U{205F}'
    || c == '\U{3000}' || c == '\U{FEFF}'
  }

  /** The index of the first character at or after i that trim keeps. */
  function SpaceFrom(s: string, i: nat): (n: nat)
    requires i <= |s|
    ensures i <= n <= |s|
    ensures forall j :: i <= j < n ==> IsWhitespace(s[j])
    ensures n < |s| ==> !IsWhitespace(s[n])
    decreases |s| - i
  {
    if i == |s| || !IsWhitespace(s[i]) then i else SpaceFrom(s, i + 1)
  }

  /** The index just past the last character before j that trim keeps. */
  function SpaceBefore(s: string, j: nat): (n: nat)
    requires j <= |s|
    ensures n <= j
    ensures forall k :: n <= k < j ==> IsWhitespace(s[k])
    ensures n > 0 ==> !IsWhitespace(s[n - 1])
  {
    if j == 0 || !IsWhitespace(s[j - 1]) then j else SpaceBefore(s, j - 1)
  }

  function TrimStart(s: string): (r: string)
    ensures |r| <= |s| && r == s[|s| - |r|..]
    ensures r != [] ==> !IsWhitespace(r[0])
    ensures forall i :: 0 <= i < |s| - |r| ==> IsWhitespace(s[i])
  {
    s[SpaceFrom(s, 0)..]
  }

  function TrimEnd(s: string): (r: string)
    ensures |r| <= |s| && r == s[..|r|]
    ensures r != [] ==> !IsWhitespace(r[|r| - 1])
    ensures forall i :: |r| <= i < |s| ==> IsWhitespace(s[i])
  {
    s[..SpaceBefore(s, |s|)]
  }

  /** JavaScript's `s.trim()`. */
  function Trim(s: string): string {
    TrimEnd(TrimStart(s))
  }

  /** `s.trim().length > 0`: the test every validator of the form uses. */
  predicate HasContent(s: string) {
    |Trim(s)| > 0
  }

  /** A string has content after trimming exactly when one of its characters
      is not whitespace. */
  lemma HasContentIff(s: string)
    ensures HasContent(s) <==> exists i :: 0 <= i < |s| && !IsWhitespace(s[i])
  {
    var t := TrimStart(s);
    if HasContent(s) {
      var r := Trim(s);
      assert r[0] == t[0];
      assert s[|s| - |t|] == t[0];
    } else {
      assert t == [];
    }
  }

  /** Upper-casing of ASCII letters (Python's str.upper restricted to ASCII). */
  function UpperChar(c: char): (r: char)
    ensures 'a' <= c <= 'z' ==> r as int == c as int - 32
    ensures !('a' <= c <= 'z') ==> r == c
  {
    if 'a' <= c <= 'z' then (c as int - 32) as char else c
  }

  function Upper(s: string): (r: string)
    ensures |r| == |s|
    ensures forall i :: 0 <= i < |s| ==> r[i] == UpperChar(s[i])
  {
    if s == [] then [] else [UpperChar(s[0])] + Upper(s[1..])
  }

  /** Upper-casing twice is upper-casing once. */
  lemma {:induction false} UpperIdempotent(s: string)
    ensures Upper(Upper(s)) == Upper(s)
  {
    if s != [] {
      UpperIdempotent(s[1..]);
      assert Upper(s)[1..] == Upper(s[1..]);
    }
  }

  predicate StartsWith(s: string, prefix: string) {
    |prefix| <= |s| && s[..|prefix|] == prefix
  }
}

/** JavaScript's Array.prototype.slice (and String.prototype.slice, which
    clips its indices the same way for non-negative arguments). */
module JsArrays {

  /** A relative index as slice reads it: negative counts from the end, and
      the result is clipped to [0, n]. */
  function RelativeIndex(i: int, n: nat): (k: nat)
    ensures k <= n
    ensures 0 <= i ==> k == if i < n then i else n
    ensures i < 0 ==> k == if n + i > 0 then n + i else 0
  {
    if i < 0 then (if n + i > 0 then n + i else 0) else if i < n then i else n
  }

  function Slice<T>(s: seq<T>, start: int, end: int): seq<T> {
    var k := RelativeIndex(start, |s|);
    var f := RelativeIndex(end, |s|);
    if f <= k then [] else s[k..f]
  }

  /** For non-negative bounds, slice is the sub-sequence between the bounds
      clipped to the length, and empty when start reaches the end. */
  lemma SliceNonNegative<T>(s: seq<T>, start: int, end: int)
    requires 0 <= start && 0 <= end
    ensures start >= |s| || end <= start ==> Slice(s, start, end) == []
    ensures start < |s| && start < end ==>
      Slice(s, start, end) == s[start..if end < |s| then end else |s|]
    ensures |Slice(s, start, end)| <= |s|
  {
  }
}
