/**
 The few JavaScript runtime behaviours the relay leans on: the values a JSON
 request body field can hold, truthiness, template-literal text, and the
 String/Array built-ins `indexOf`, `lastIndexOf`, `slice`, `trim` and
 `toLowerCase`. Strings are sequences of characters; indices count characters.
 */
module JsBuiltins {

  /** A request-body field as the handlers see it after JSON body parsing. */
  datatype JsValue = Undefined | Null | Bool(b: bool) | Str(s: string)

  /** JavaScript truthiness: `undefined`, `null`, `false` and `""` are falsy. */
  predicate Truthy(v: JsValue) {
    match v
    case Undefined => false
    case Null => false
    case Bool(b) => b
    case Str(s) => s != ""
  }

  /** The text a value contributes to a template literal, and the property key it becomes. */
  function ToText(v: JsValue): (r: string)
    ensures v.Str? ==> r == v.s
    ensures v.Undefined? ==> r == "undefined"
    ensures v.Null? ==> r == "null"
    ensures v.Bool? ==> (r == "true" <==> v.b) && (r == "false" <==> !v.b)
  {
    match v
    case Undefined => "undefined"
    case Null => "null"
    case Bool(b) => if b then "true" else "false"
    case Str(s) => s
  }

  /** `i` is the position of the first occurrence of `x` in `s`. */
  ghost predicate IsFirst<T>(s: seq<T>, x: T, i: int) {
    0 <= i < |s| && s[i] == x && x !in s[..i]
  }

  /** `i` is the position of the last occurrence of `x` in `s`. */
  ghost predicate IsLast<T>(s: seq<T>, x: T, i: int) {
    0 <= i < |s| && s[i] == x && x !in s[i + 1..]
  }

  /** `String.prototype.indexOf` / `Array.prototype.indexOf` (strict equality): the first position of `x`, or -1. */
  function IndexOf<T(==)>(s: seq<T>, x: T): (r: int)
    ensures -1 <= r < |s|
    ensures r == -1 <==> x !in s
    ensures r != -1 ==> IsFirst(s, x, r)
  {
    if |s| == 0 then -1
    else if s[0] == x then 0
    else
      var k := IndexOf(s[1..], x);
      if k == -1 then -1 else k + 1
  }

  /** `lastIndexOf`: the last position of `x`, or -1. */
  function LastIndexOf<T(==)>(s: seq<T>, x: T): (r: int)
    ensures -1 <= r < |s|
    ensures r == -1 <==> x !in s
    ensures r != -1 ==> IsLast(s, x, r)
  {
    if |s| == 0 then -1
    else if s[|s| - 1] == x then |s| - 1
    else LastIndexOf(s[..|s| - 1], x)
  }

  /** The first occurrence is unique: any position satisfying IsFirst is the one indexOf reports. */
  lemma IndexOfIsFirst<T>(s: seq<T>, x: T, i: int)
    requires IsFirst(s, x, i)
    ensures IndexOf(s, x) == i
  {
  }

  /** The last occurrence is unique: any position satisfying IsLast is the one lastIndexOf reports. */
  lemma LastIndexOfIsLast<T>(s: seq<T>, x: T, i: int)
    requires IsLast(s, x, i)
    ensures LastIndexOf(s, x) == i
  {
  }

  /** How `slice` turns one (possibly negative) argument into a position within a string of length `len`. */
  function ClampIndex(i: int, len: nat): (r: nat)
    ensures r <= len
    ensures 0 <= i <= len ==> r == i
    ensures i > len ==> r == len
    ensures i < 0 ==> r == if len + i < 0 then 0 else len + i
  {
    if i < 0 then (if len + i < 0 then 0 else len + i)
    else if i > len then len
    else i
  }

  /** `String.prototype.slice(start, end)`: an end at or before the start gives the empty string. */
  function Slice<T>(s: seq<T>, start: int, end: int): (r: seq<T>)
    ensures 0 <= start <= end <= |s| ==> r == s[start..end]
    ensures 0 <= end <= start ==> r == []
    ensures ClampIndex(end, |s|) <= ClampIndex(start, |s|) <==> r == []
  {
    var from := ClampIndex(start, |s|);
    var to := ClampIndex(end, |s|);
    if to <= from then [] else s[from..to]
  }

  /** A negative `slice` argument counts back from the end of the string. */
  lemma SliceFromEnd<T>(s: seq<T>, a: int, b: int)
    requires 0 <= a < |s| && 0 <= b < |s|
    ensures Slice(s, a - |s|, b - |s|) == Slice(s, a, b)
  {
  }

  /** The characters `trim` removes: ECMAScript WhiteSpace (including every Zs space) and LineTerminator. */
  predicate IsJsWhitespace(c: char) {
    || c == '\t' || c == '\n' || c == '\U{000B}' || c == '\U{000C}' || c == '\r'
    || c == ' ' || c == '\U{00A0}' || c == '\U{1680}'
    || ('\U{2000}' <= c <= '\U{200A}')
    || c == '\U{2028}' || c == '\U{2029}' || c == '\U{202F}' || c == '\U{205F}'
    || c == '\U{3000}' || c == '\U{FEFF}'
  }

  ghost predicate AllWhitespace(s: string) {
    forall i :: 0 <= i < |s| ==> IsJsWhitespace(s[i])
  }

  /** Removes leading whitespace. */
  function TrimStart(s: string): (r: string)
    ensures |r| <= |s| && r == s[|s| - |r|..]
    ensures AllWhitespace(s[..|s| - |r|])
    ensures r != [] ==> !IsJsWhitespace(r[0])
  {
    if s != [] && IsJsWhitespace(s[0]) then
      var t := TrimStart(s[1..]);
      assert s[..|s| - |t|] == [s[0]] + s[1..][..|s[1..]| - |t|];
      t
    else s
  }

  /** Removes trailing whitespace. */
  function TrimEnd(s: string): (r: string)
    ensures |r| <= |s| && r == s[..|r|]
    ensures AllWhitespace(s[|r|..])
    ensures r != [] ==> !IsJsWhitespace(r[|r| - 1])
  {
    if s != [] && IsJsWhitespace(s[|s| - 1]) then
      var t := TrimEnd(s[..|s| - 1]);
      assert s[|t|..] == s[..|s| - 1][|t|..] + [s[|s| - 1]];
      t
    else s
  }

  /** `r` is `s` with the whitespace run `s[..k]` removed in front and only whitespace removed behind. */
  ghost predicate TrimmedAt(s: string, r: string, k: int) {
    && 0 <= k && k + |r| <= |s|
    && r == s[k..k + |r|]
    && AllWhitespace(s[..k])
    && AllWhitespace(s[k + |r|..])
  }

  /** `String.prototype.trim`: strips whitespace at both ends and nothing else. */
  function Trim(s: string): (r: string)
    ensures exists k :: TrimmedAt(s, r, k)
    ensures r != [] ==> !IsJsWhitespace(r[0]) && !IsJsWhitespace(r[|r| - 1])
  {
    var front := TrimStart(s);
    var r := TrimEnd(front);
    TrimmedInside(s, front, r);
    r
  }

  /** Trimming the front and then the end of what is left trims `s` at the offset where `front` starts. */
  lemma TrimmedInside(s: string, front: string, r: string)
    requires |front| <= |s| && front == s[|s| - |front|..] && AllWhitespace(s[..|s| - |front|])
    requires |r| <= |front| && r == front[..|r|] && AllWhitespace(front[|r|..])
    ensures TrimmedAt(s, r, |s| - |front|)
  {
    var k := |s| - |front|;
    assert s[k..k + |r|] == front[..|r|];
    assert s[k + |r|..] == front[|r|..];
  }

  /** Leading whitespace ends at the first character that is not whitespace. */
  lemma {:induction false} TrimStartAt(s: string, k: int)
    requires 0 <= k <= |s| && AllWhitespace(s[..k])
    requires k < |s| ==> !IsJsWhitespace(s[k])
    ensures TrimStart(s) == s[k..]
  {
    if k > 0 {
      assert s[..k][0] == s[0];
      assert s[1..][..k - 1] == s[..k][1..];
      TrimStartAt(s[1..], k - 1);
      assert s[1..][k - 1..] == s[k..];
    }
  }

  /** Trailing whitespace starts after the last character that is not whitespace. */
  lemma {:induction false} TrimEndAt(s: string, k: int)
    requires 0 <= k <= |s| && AllWhitespace(s[k..])
    requires 0 < k ==> !IsJsWhitespace(s[k - 1])
    ensures TrimEnd(s) == s[..k]
  {
    if k < |s| {
      var init := s[..|s| - 1];
      assert s[k..][|s| - 1 - k] == s[|s| - 1];
      assert init[k..] == s[k..][..|s| - 1 - k];
      TrimEndAt(init, k);
      assert init[..k] == s[..k];
    }
  }

  /** Cutting whitespace-only ends at `lo` and `hi`, up to the first and last other character, is trimming. */
  lemma TrimmedWindow(s: string, lo: int, hi: int)
    requires 0 <= lo <= hi <= |s|
    requires AllWhitespace(s[..lo]) && AllWhitespace(s[hi..])
    requires lo < |s| ==> !IsJsWhitespace(s[lo])
    requires lo < hi ==> !IsJsWhitespace(s[hi - 1])
    ensures Trim(s) == s[lo..hi]
  {
    TrimStartAt(s, lo);
    TrimEndOfSuffix(s, lo, hi);
  }

  lemma TrimEndOfSuffix(s: string, lo: int, hi: int)
    requires 0 <= lo <= hi <= |s|
    requires AllWhitespace(s[hi..])
    requires lo < hi ==> !IsJsWhitespace(s[hi - 1])
    ensures TrimEnd(s[lo..]) == s[lo..hi]
  {
    var front := s[lo..];
    assert front[hi - lo..] == s[hi..];
    TrimEndAt(front, hi - lo);
    assert front[..hi - lo] == s[lo..hi];
  }

  /** `trim` as a scan from each end; it computes exactly the trimmed string defined above. */
  method TrimByScan(s: string) returns (t: string)
    ensures t == Trim(s)
  {
    var lo := 0;
    while lo < |s| && IsJsWhitespace(s[lo])
      invariant 0 <= lo <= |s|
      invariant AllWhitespace(s[..lo])
    {
      lo := lo + 1;
    }
    var hi := |s|;
    while lo < hi && IsJsWhitespace(s[hi - 1])
      invariant lo <= hi <= |s|
      invariant AllWhitespace(s[hi..])
    {
      hi := hi - 1;
    }
    TrimmedWindow(s, lo, hi);
    t := s[lo..hi];
  }

  /** Trimming a trimmed string changes nothing. */
  lemma TrimIdempotent(s: string)
    ensures Trim(Trim(s)) == Trim(s)
  {
  }

  /** The lower case of one character, for ASCII letters only. */
  function LowerChar(c: char): char {
    if 'A' <= c <= 'Z' then (c as int + 32) as char else c
  }

  /** `toLowerCase`, restricted to ASCII letters. */
  function ToLowerCase(s: string): (r: string)
    ensures |r| == |s|
    ensures forall i :: 0 <= i < |s| ==> r[i] == LowerChar(s[i])
  {
    seq(|s|, i requires 0 <= i < |s| => LowerChar(s[i]))
  }

  /** Lower-casing is idempotent: a lower-cased key is its own lower case. */
  lemma ToLowerCaseIdempotent(s: string)
    ensures ToLowerCase(ToLowerCase(s)) == ToLowerCase(s)
  {
  }
}
