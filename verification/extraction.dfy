/**
 Locating the JSON object inside free model output: the span from the first
 `{` to the last `}`, both included, taken with `slice` so that a last `}`
 lying before the first `{` yields the empty string.
 */
module Extraction {
  import opened JsBuiltins

  function ExtractSpan(content: string): (r: string)
    // without a `{` or without a `}` the text is passed on unchanged
    ensures '{' !in content || '}' !in content ==> r == content
    // otherwise the inclusive span between the first `{` and the last `}` ...
    ensures forall i, j {:trigger IsFirst(content, '{', i), IsLast(content, '}', j)} ::
      IsFirst(content, '{', i) && IsLast(content, '}', j) && i < j ==> r == content[i..j + 1]
    // ... or nothing at all when that last `}` comes first
    ensures forall i, j {:trigger IsFirst(content, '{', i), IsLast(content, '}', j)} ::
      IsFirst(content, '{', i) && IsLast(content, '}', j) && j < i ==> r == []
    // a non-empty span taken from braces is delimited by them
    ensures '{' in content && '}' in content && r != [] ==> r[0] == '{' && r[|r| - 1] == '}'
  {
    var first := IndexOf(content, '{');
    var last := LastIndexOf(content, '}');
    if first != -1 && last != -1 then Slice(content, first, last + 1) else content
  }

  /**
   The extraction as one forward scan for the first `{` and one backward scan
   for the last `}`; it computes exactly the span defined above.
   */
  method ExtractSpanByScan(content: string) returns (span: string)
    ensures span == ExtractSpan(content)
  {
    var first := -1;
    var i := 0;
    while i < |content| && first == -1
      invariant 0 <= i <= |content|
      invariant first == -1 ==> '{' !in content[..i]
      invariant first != -1 ==> IsFirst(content, '{', first)
    {
      if content[i] == '{' {
        first := i;
      }
      i := i + 1;
    }
    var last := -1;
    var j := |content|;
    while 0 < j && last == -1
      invariant 0 <= j <= |content|
      invariant last == -1 ==> '}' !in content[j..]
      invariant last != -1 ==> IsLast(content, '}', last)
    {
      j := j - 1;
      if content[j] == '}' {
        last := j;
      }
    }
    if first == -1 || last == -1 {
      assert i == |content| || j == 0;
      assert content[..|content|] == content == content[0..];
      span := content;
    } else {
      ExtractSpanAt(content, first, last);
      span := if first < last then content[first..last + 1] else [];
    }
  }

  /** Extracting from an extracted span changes nothing. */
  lemma ExtractSpanIdempotent(content: string)
    ensures ExtractSpan(ExtractSpan(content)) == ExtractSpan(content)
  {
  }

  /**
   A JSON object embedded in prose is recovered exactly, whatever braces it
   contains, provided the prose before it has no `{` and the prose after it
   has no `}`.
   */
  lemma ExtractSpanEmbedded(before: string, json: string, after: string)
    requires '{' !in before && '}' !in after
    requires |json| > 0 && json[0] == '{' && json[|json| - 1] == '}'
    ensures ExtractSpan(before + json + after) == json
  {
    var s := before + json + after;
    var i := |before|;
    var j := |before| + |json| - 1;
    assert s[..i] == before;
    assert s[j + 1..] == after;
    assert IsFirst(s, '{', i);
    assert IsLast(s, '}', j);
    assert s[i..j + 1] == json;
  }

  /** The worked example of a model reply that wraps its JSON in prose. */
  lemma ExtractSpanExample()
    ensures ExtractSpan("Here is JSON: " + WorkedJson + " Thanks!") == WorkedJson
  {
    var before, after := "Here is JSON: ", " Thanks!";
    assert '{' !in before by {
      forall c | c in before ensures c != '{' { }
    }
    assert '}' !in after;
    assert WorkedJson[0] == '{' && WorkedJson[|WorkedJson| - 1] == '}';
    ExtractSpanEmbedded(before, WorkedJson, after);
  }

  /** The question object of the worked example, braces included. */
  const WorkedJson: string := "{" + WorkedFields + "}"
  const WorkedFields: string := "\"text\":\"Q\",\"choices\":[\"a\",\"b\",\"c\",\"d\"],\"answer_index\":2,\"difficulty\":\"medium\""

  /** A `}` before the only `{` leaves nothing to parse. */
  lemma ExtractSpanReversed()
    ensures ExtractSpan("} nothing here {") == ""
  {
    var s := "} nothing here {";
    assert IsFirst(s, '{', |s| - 1);
    assert IsLast(s, '}', 0);
  }

  /**
   Trimming before extraction never moves the span: when both braces occur,
   extracting from the trimmed text and from the raw text agree.
   */
  lemma ExtractSpanIgnoresTrim(s: string)
    requires '{' in s && '}' in s
    ensures ExtractSpan(Trim(s)) == ExtractSpan(s)
  {
    var t := Trim(s);
    var k :| TrimmedAt(s, t, k);
    ExtractSpanTrimmedAt(s, t, k);
  }

  /** The extraction from `s` and from any whitespace-trimmed window of it agree when `s` has both braces. */
  lemma ExtractSpanTrimmedAt(s: string, t: string, k: int)
    requires TrimmedAt(s, t, k)
    requires '{' in s && '}' in s
    ensures ExtractSpan(t) == ExtractSpan(s)
  {
    var i := IndexOf(s, '{');
    var j := LastIndexOf(s, '}');
    InsideTrimmed(s, t, k, i);
    InsideTrimmed(s, t, k, j);
    FirstInWindow(s, t, k, '{', i);
    LastInWindow(s, t, k, '}', j);
    ExtractSpanWindow(s, t, k, i, j);
  }

  /** Extraction commutes with cutting out a window that holds the first `{` and the last `}`. */
  lemma ExtractSpanWindow(s: string, t: string, k: int, i: int, j: int)
    requires 0 <= k && k + |t| <= |s| && t == s[k..k + |t|]
    requires IsFirst(s, '{', i) && IsLast(s, '}', j)
    requires IsFirst(t, '{', i - k) && IsLast(t, '}', j - k)
    ensures ExtractSpan(t) == ExtractSpan(s)
  {
    ExtractSpanAt(t, i - k, j - k);
    ExtractSpanAt(s, i, j);
    SliceWindow(s, t, k, i, j + 1);
  }

  lemma SliceWindow(s: string, t: string, k: int, from: int, to: int)
    requires 0 <= k && k + |t| <= |s| && t == s[k..k + |t|]
    requires k <= from <= k + |t| && k <= to <= k + |t|
    ensures Slice(t, from - k, to - k) == Slice(s, from, to)
  {
    if from < to {
      var a, b := t[from - k..to - k], s[from..to];
      forall n | 0 <= n < |a| ensures a[n] == b[n] {
        assert a[n] == t[from - k + n] == s[from + n];
      }
    }
  }

  /** With both braces present the span is the `slice` from the first `{` through the last `}`. */
  lemma ExtractSpanAt(s: string, i: int, j: int)
    requires IsFirst(s, '{', i) && IsLast(s, '}', j)
    ensures ExtractSpan(s) == Slice(s, i, j + 1)
  {
  }

  /** A character that is not whitespace survives trimming. */
  lemma InsideTrimmed(s: string, t: string, k: int, i: int)
    requires TrimmedAt(s, t, k)
    requires 0 <= i < |s| && !IsJsWhitespace(s[i])
    ensures k <= i < k + |t|
  {
  }

  /** A first occurrence inside a window is the first occurrence within the window. */
  lemma FirstInWindow<T>(s: seq<T>, t: seq<T>, k: int, x: T, i: int)
    requires 0 <= k && k + |t| <= |s| && t == s[k..k + |t|]
    requires IsFirst(s, x, i) && k <= i < k + |t|
    ensures IsFirst(t, x, i - k)
  {
  }

  /** A last occurrence inside a window is the last occurrence within the window. */
  lemma LastInWindow<T>(s: seq<T>, t: seq<T>, k: int, x: T, i: int)
    requires 0 <= k && k + |t| <= |s| && t == s[k..k + |t|]
    requires IsLast(s, x, i) && k <= i < k + |t|
    ensures IsLast(t, x, i - k)
  {
  }
}
