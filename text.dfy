/**
 * The JavaScript string primitives the core relies on (`startsWith`, `endsWith`,
 * `includes`, `trim`, `split`, ASCII `toLowerCase`), over strings as sequences
 * of Unicode scalar values (`char`).
 */
module Text {

  predicate IsAsciiUpper(c: char) { 'A' <= c <= 'Z' }

  predicate IsAsciiLower(c: char) { 'a' <= c <= 'z' }

  /** `\d` in a JavaScript regular expression: the ten ASCII digits. */
  predicate IsAsciiDigit(c: char) { '0' <= c <= '9' }

  /** Lower-cases an ASCII capital and leaves every other character alone. */
  function LowerChar(c: char): (d: char)
    ensures IsAsciiUpper(c) ==> IsAsciiLower(d) && d as int == c as int + 32
    ensures !IsAsciiUpper(c) ==> d == c
    ensures !IsAsciiUpper(d)
  {
    if IsAsciiUpper(c) then (c as int + 32) as char else c
  }

  function ToLowerAscii(s: string): (r: string)
    ensures |r| == |s|
    ensures forall i :: 0 <= i < |s| ==> r[i] == LowerChar(s[i])
    ensures (forall i :: 0 <= i < |s| ==> !IsAsciiUpper(s[i])) ==> r == s
  {
    seq(|s|, i requires 0 <= i < |s| => LowerChar(s[i]))
  }

  /** Lower-casing twice is lower-casing once. */
  lemma ToLowerAsciiIdempotent(s: string)
    ensures ToLowerAscii(ToLowerAscii(s)) == ToLowerAscii(s)
  {
  }

  /** Lower-casing leaves whitespace padding in place. */
  lemma ToLowerAsciiPadded(pre: string, s: string, post: string)
    requires forall j :: 0 <= j < |pre| ==> IsJsWhitespace(pre[j])
    requires forall j :: 0 <= j < |post| ==> IsJsWhitespace(post[j])
    ensures ToLowerAscii(pre + s + post) == pre + ToLowerAscii(s) + post
  {
    var padded := pre + s + post;
    forall j | 0 <= j < |padded|
      ensures ToLowerAscii(padded)[j] == (pre + ToLowerAscii(s) + post)[j]
    {
      if j < |pre| {
        assert padded[j] == pre[j];
      } else if j < |pre| + |s| {
        assert padded[j] == s[j - |pre|];
      } else {
        assert padded[j] == post[j - |pre| - |s|];
      }
    }
  }

  predicate StartsWith(s: string, prefix: string) {
    |prefix| <= |s| && s[..|prefix|] == prefix
  }

  predicate EndsWith(s: string, suffix: string) {
    |suffix| <= |s| && s[|s| - |suffix|..] == suffix
  }

  /** `s.endsWith(suffix)` holds exactly when `s` is some string followed by `suffix`. */
  lemma EndsWithIff(s: string, suffix: string)
    ensures EndsWith(s, suffix) <==> exists p: string :: s == p + suffix
  {
    if EndsWith(s, suffix) {
      var p := s[..|s| - |suffix|];
      assert s == p + suffix;
    }
    if exists p: string :: s == p + suffix {
      var p: string :| s == p + suffix;
      assert s[|s| - |suffix|..] == suffix;
    }
  }

  /** `s.includes(sub)`: `sub` occurs in `s` at some position. */
  predicate Contains(s: string, sub: string)
    decreases |s|
  {
    StartsWith(s, sub) || (|s| > 0 && Contains(s[1..], sub))
  }

  /** `sub` occurs in `s` starting at index `i`. */
  predicate OccursAt(s: string, sub: string, i: int) {
    0 <= i && i + |sub| <= |s| && s[i..i + |sub|] == sub
  }

  /** The recursive search finds `sub` exactly when it occurs at some index. */
  lemma {:induction false} ContainsIff(s: string, sub: string)
    ensures Contains(s, sub) <==> exists i :: OccursAt(s, sub, i)
    decreases |s|
  {
    if StartsWith(s, sub) {
      assert OccursAt(s, sub, 0);
    } else if |s| > 0 {
      ContainsIff(s[1..], sub);
      if Contains(s[1..], sub) {
        var i :| OccursAt(s[1..], sub, i);
        assert s[i + 1..i + 1 + |sub|] == s[1..][i..i + |sub|];
        assert OccursAt(s, sub, i + 1);
      }
      if exists i :: OccursAt(s, sub, i) {
        var i :| OccursAt(s, sub, i);
        if i == 0 {
          assert false;
        } else {
          assert s[1..][i - 1..i - 1 + |sub|] == s[i..i + |sub|];
          assert OccursAt(s[1..], sub, i - 1);
        }
      }
    }
  }

  /** Whatever `s` contains is no longer than `s` and uses only characters of `s`. */
  lemma {:induction false} ContainsChars(s: string, sub: string)
    requires Contains(s, sub)
    ensures |sub| <= |s|
    ensures forall c :: c in sub ==> c in s
    decreases |s|
  {
    if StartsWith(s, sub) {
      assert forall c :: c in sub ==> c in s[..|sub|];
    } else {
      ContainsChars(s[1..], sub);
      assert forall c :: c in s[1..] ==> c in s;
    }
  }

  lemma ContainsSelf(s: string)
    ensures Contains(s, s)
  {
  }

  lemma ContainsEmpty(s: string)
    ensures Contains(s, "")
  {
  }

  /**
   * The characters JavaScript's `String.prototype.trim` removes: the
   * WhiteSpace and LineTerminator productions of ECMAScript.
   */
  predicate IsJsWhitespace(c: char) {
    || c == '\t' || c == '\n' || c == '\U{000B}' || c == '\U{000C}' || c == '\r' || c == ' '
    || c == '\U{00A0}' || c == '\U{1680}' || ('\U{2000}' <= c <= '\U{200A}')
    || c == '\U{2028}' || c == '\U{2029}' || c == '\U{202F}' || c == '\U{205F}'
    || c == '\U{3000}' || c == '\U{FEFF}'
  }

  /** The first position at or after `i` that does not hold whitespace, or `|s|`. */
  function TrimStart(s: string, i: nat): (a: nat)
    requires i <= |s|
    ensures i <= a <= |s|
    ensures forall j :: i <= j < a ==> IsJsWhitespace(s[j])
    ensures a < |s| ==> !IsJsWhitespace(s[a])
    decreases |s| - i
  {
    if i < |s| && IsJsWhitespace(s[i]) then TrimStart(s, i + 1) else i
  }

  /** The end of `s[a..b]` once the whitespace at its back is cut off. */
  function TrimEnd(s: string, a: nat, b: nat): (e: nat)
    requires a <= b <= |s|
    ensures a <= e <= b
    ensures forall j :: e <= j < b ==> IsJsWhitespace(s[j])
    ensures a < e ==> !IsJsWhitespace(s[e - 1])
  {
    if a < b && IsJsWhitespace(s[b - 1]) then TrimEnd(s, a, b - 1) else b
  }

  /**
   * `s.trim()`: the middle slice left after removing only whitespace from both
   * ends, with no whitespace left at either of its ends.
   */
  function Trim(s: string): (r: string)
    ensures |r| <= |s|
    ensures r != [] ==> !IsJsWhitespace(r[0]) && !IsJsWhitespace(r[|r| - 1])
    ensures exists a, b ::
              && 0 <= a <= b <= |s| && r == s[a..b]
              && (forall j :: 0 <= j < a ==> IsJsWhitespace(s[j]))
              && (forall j :: b <= j < |s| ==> IsJsWhitespace(s[j]))
    ensures s == [] || (!IsJsWhitespace(s[0]) && !IsJsWhitespace(s[|s| - 1])) ==> r == s
  {
    var a := TrimStart(s, 0);
    var b := TrimEnd(s, a, |s|);
    assert a < b ==> s[a..b][0] == s[a] && s[a..b][b - a - 1] == s[b - 1];
    s[a..b]
  }

  /** Trimming only removes characters. */
  lemma TrimKeepsAbsent(s: string, c: char)
    requires c !in s
    ensures c !in Trim(s)
  {
    var a, b :| 0 <= a <= b <= |s| && Trim(s) == s[a..b];
    assert forall k :: 0 <= k < |Trim(s)| ==> Trim(s)[k] == s[a + k];
  }

  /** A string made only of whitespace trims to the empty string. */
  lemma TrimAllWhitespace(s: string)
    requires forall j :: 0 <= j < |s| ==> IsJsWhitespace(s[j])
    ensures Trim(s) == ""
  {
  }

  /**
   * The slice `Trim` keeps is determined by the input: any slice with only
   * whitespace outside it and none at its own ends is the trimmed string.
   */
  lemma TrimUnique(s: string, a: nat, b: nat)
    requires a < b <= |s|
    requires forall j :: 0 <= j < a ==> IsJsWhitespace(s[j])
    requires forall j :: b <= j < |s| ==> IsJsWhitespace(s[j])
    requires !IsJsWhitespace(s[a]) && !IsJsWhitespace(s[b - 1])
    ensures Trim(s) == s[a..b]
  {
    assert TrimStart(s, 0) == a;
    assert TrimEnd(s, a, |s|) == b;
  }

  /** Whitespace around a whitespace-only string leaves a whitespace-only string. */
  lemma PaddedAllWhitespace(pre: string, s: string, post: string)
    requires forall j :: 0 <= j < |pre| ==> IsJsWhitespace(pre[j])
    requires forall j :: 0 <= j < |s| ==> IsJsWhitespace(s[j])
    requires forall j :: 0 <= j < |post| ==> IsJsWhitespace(post[j])
    ensures Trim(pre + s + post) == ""
  {
    var u := pre + s + post;
    forall j | 0 <= j < |u|
      ensures IsJsWhitespace(u[j])
    {
      if j < |pre| {
        assert u[j] == pre[j];
      } else if j < |pre| + |s| {
        assert u[j] == s[j - |pre|];
      } else {
        assert u[j] == post[j - |pre| - |s|];
      }
    }
    TrimAllWhitespace(u);
  }

  /** Padding shifts the trimmed slice `s[a..b]` by the length of the front padding. */
  lemma PaddedSlice(pre: string, s: string, post: string, a: nat, b: nat)
    requires forall j :: 0 <= j < |pre| ==> IsJsWhitespace(pre[j])
    requires forall j :: 0 <= j < |post| ==> IsJsWhitespace(post[j])
    requires a < b <= |s|
    requires forall j :: 0 <= j < a ==> IsJsWhitespace(s[j])
    requires forall j :: b <= j < |s| ==> IsJsWhitespace(s[j])
    requires !IsJsWhitespace(s[a]) && !IsJsWhitespace(s[b - 1])
    ensures Trim(pre + s + post) == s[a..b]
  {
    var u := pre + s + post;
    var a', b' := a + |pre|, b + |pre|;
    forall j | 0 <= j < a'
      ensures IsJsWhitespace(u[j])
    {
      if j < |pre| {
        assert u[j] == pre[j];
      } else {
        assert u[j] == s[j - |pre|];
      }
    }
    forall j | b' <= j < |u|
      ensures IsJsWhitespace(u[j])
    {
      if j < |pre| + |s| {
        assert u[j] == s[j - |pre|];
      } else {
        assert u[j] == post[j - |pre| - |s|];
      }
    }
    assert u[a'] == s[a] && u[b' - 1] == s[b - 1];
    assert u[a'..b'] == s[a..b];
    TrimUnique(u, a', b');
  }

  /** Whitespace added around a string does not change what it trims to. */
  lemma TrimPadded(pre: string, s: string, post: string)
    requires forall j :: 0 <= j < |pre| ==> IsJsWhitespace(pre[j])
    requires forall j :: 0 <= j < |post| ==> IsJsWhitespace(post[j])
    ensures Trim(pre + s + post) == Trim(s)
  {
    var r := Trim(s);
    var a, b :| && 0 <= a <= b <= |s| && r == s[a..b]
                && (forall j :: 0 <= j < a ==> IsJsWhitespace(s[j]))
                && (forall j :: b <= j < |s| ==> IsJsWhitespace(s[j]));
    if a == b {
      PaddedAllWhitespace(pre, s, post);
      TrimAllWhitespace(s);
    } else {
      assert r[0] == s[a] && r[|r| - 1] == s[b - 1];
      PaddedSlice(pre, s, post, a, b);
    }
  }

  /** `s.split(sep)` for a one-character separator: never empty, as in JavaScript. */
  function Split(s: string, sep: char): (parts: seq<string>)
    ensures |parts| >= 1
    decreases |s|
  {
    if s == [] then [""]
    else
      var rest := Split(s[1..], sep);
      if s[0] == sep then [""] + rest
      else [[s[0]] + rest[0]] + rest[1..]
  }

  /** `parts.join(sep)`. */
  function Join(parts: seq<string>, sep: char): string
    requires |parts| >= 1
    decreases |parts|
  {
    if |parts| == 1 then parts[0] else parts[0] + [sep] + Join(parts[1..], sep)
  }

  /** Splitting loses nothing: joining the parts back gives the original string. */
  lemma {:induction false} SplitJoin(s: string, sep: char)
    ensures Join(Split(s, sep), sep) == s
    decreases |s|
  {
    if s != [] {
      SplitJoin(s[1..], sep);
      var rest := Split(s[1..], sep);
      if s[0] == sep {
        assert Split(s, sep)[1..] == rest;
      } else {
        var parts := Split(s, sep);
        if |rest| == 1 {
          assert parts == [[s[0]] + rest[0]];
        } else {
          assert parts[1..] == rest[1..];
          assert Join(rest, sep) == rest[0] + [sep] + Join(rest[1..], sep);
        }
      }
    }
  }

  /** No part of a split contains the separator. */
  lemma {:induction false} SplitPartsFree(s: string, sep: char)
    ensures forall i :: 0 <= i < |Split(s, sep)| ==> sep !in Split(s, sep)[i]
    decreases |s|
  {
    if s != [] {
      SplitPartsFree(s[1..], sep);
    }
  }

  /** A string without the separator splits into itself alone. */
  lemma {:induction false} SplitWithoutSep(s: string, sep: char)
    requires sep !in s
    ensures Split(s, sep) == [s]
    decreases |s|
  {
    if s != [] {
      SplitWithoutSep(s[1..], sep);
      assert [s[0]] + s[1..] == s;
    }
  }

  /** A separator-free head followed by the separator becomes the first part. */
  lemma {:induction false} SplitAfterHead(head: string, sep: char, tail: string)
    requires sep !in head
    ensures Split(head + [sep] + tail, sep) == [head] + Split(tail, sep)
    decreases |head|
  {
    var s := head + [sep] + tail;
    if head == [] {
      assert s[1..] == tail;
    } else {
      assert s[1..] == head[1..] + [sep] + tail;
      SplitAfterHead(head[1..], sep, tail);
      assert [head[0]] + head[1..] == head;
    }
  }
}
