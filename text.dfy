/**
 * The JavaScript string operations the normalisation and the search rely on:
 * `String.prototype.trim`, `Array.prototype.join`, `toLowerCase` (ASCII letters only)
 * and `String.prototype.includes`, plus `Split`, the inverse of `Join`.
 */
module Text {

  /** The characters `trim` removes: ECMAScript WhiteSpace and LineTerminator. */
  predicate IsJsWhitespace(c: char) {
    || c == '\t' || c == '\n' || c == '\U{000B}' || c == '\U{000C}' || c == '\r' || c == ' '
    || c == '\U{00A0}' || c == '\U{1680}' || ('\U{2000}' <= c <= '\U{200A}')
    || c == '\U{2028}' || c == '\U{2029}' || c == '\U{202F}' || c == '\U{205F}'
    || c == '\U{3000}' || c == '\U{FEFF}'
  }

  /** Every character of `s` is white space (true of the empty string). */
  predicate IsBlank(s: string) {
    forall k :: 0 <= k < |s| ==> IsJsWhitespace(s[k])
  }

  /** A concatenation is blank exactly when both pieces are. */
  lemma BlankConcat(a: string, b: string)
    ensures IsBlank(a + b) <==> IsBlank(a) && IsBlank(b)
  {
    var c := a + b;
    assert forall k :: 0 <= k < |a| ==> c[k] == a[k];
    assert forall k :: 0 <= k < |b| ==> c[|a| + k] == b[k];
    if IsBlank(a) && IsBlank(b) {
      forall k | 0 <= k < |c| ensures IsJsWhitespace(c[k]) {
        if k >= |a| { assert c[k] == b[k - |a|]; }
      }
    }
  }

  /** `s` with its leading white space removed: a suffix of `s` that starts with a non-blank. */
  function TrimStart(s: string): (r: string)
    ensures |r| <= |s| && r == s[|s| - |r|..]
    ensures forall k :: 0 <= k < |s| - |r| ==> IsJsWhitespace(s[k])
    ensures r == [] || !IsJsWhitespace(r[0])
    decreases |s|
  {
    if |s| > 0 && IsJsWhitespace(s[0]) then TrimStart(s[1..]) else s
  }

  /** `s` with its trailing white space removed: a prefix of `s` that ends with a non-blank. */
  function TrimEnd(s: string): (r: string)
    ensures |r| <= |s| && r == s[..|r|]
    ensures forall k :: |r| <= k < |s| ==> IsJsWhitespace(s[k])
    ensures r == [] || !IsJsWhitespace(r[|r| - 1])
    decreases |s|
  {
    if |s| > 0 && IsJsWhitespace(s[|s| - 1]) then TrimEnd(s[..|s| - 1]) else s
  }

  /** `r` sits in `s` at index `i` with nothing but white space before and after it. */
  predicate TrimmedAt(s: string, r: string, i: int) {
    && 0 <= i <= |s| - |r|
    && s[i..i + |r|] == r
    && (forall k :: 0 <= k < i ==> IsJsWhitespace(s[k]))
    && (forall k :: i + |r| <= k < |s| ==> IsJsWhitespace(s[k]))
  }

  /**
   * `String.prototype.trim`: empty exactly when `s` is blank, and otherwise neither
   * starting nor ending with white space.
   */
  function Trim(s: string): (r: string)
    ensures r == [] <==> IsBlank(s)
    ensures r != [] ==> !IsJsWhitespace(r[0]) && !IsJsWhitespace(r[|r| - 1])
  {
    var t := TrimStart(s);
    var r := TrimEnd(t);
    TrimEmptyOnlyWhenBlank(s, t, r);
    r
  }

  /** The two halves of `Trim` leave nothing exactly when the input is all white space. */
  lemma TrimEmptyOnlyWhenBlank(s: string, t: string, r: string)
    requires t == TrimStart(s) && r == TrimEnd(t)
    ensures r == [] <==> IsBlank(s)
  {
    if t != [] {
      assert !IsJsWhitespace(t[0]);
    }
    if r == [] {
      assert s[|s| - |t|..] == t;
    }
  }

  /** `Trim(s)` is the infix of `s` that has only white space around it. */
  lemma TrimIsInfix(s: string)
    ensures exists i :: TrimmedAt(s, Trim(s), i)
  {
    var t := TrimStart(s);
    var r := TrimEnd(t);
    assert r == Trim(s);
    var i := |s| - |t|;
    assert t == s[i..];
    assert s[i..i + |r|] == t[..|r|] == r;
    assert forall k :: i + |r| <= k < |s| ==> IsJsWhitespace(s[k]) by {
      forall k | i + |r| <= k < |s| ensures IsJsWhitespace(s[k]) {
        assert s[k] == t[k - i];
      }
    }
    assert TrimmedAt(s, r, i);
  }

  /** Leading white space never changes the trimmed text. */
  lemma {:induction false} TrimStartSkipsBlank(w: string, s: string)
    requires IsBlank(w)
    ensures TrimStart(w + s) == TrimStart(s)
    decreases |w|
  {
    if w != [] {
      var ws := w + s;
      assert ws[0] == w[0];
      assert ws[1..] == w[1..] + s;
      assert TrimStart(ws) == TrimStart(w[1..] + s);
      assert forall k :: 0 <= k < |w| - 1 ==> w[1..][k] == w[k + 1];
      TrimStartSkipsBlank(w[1..], s);
    } else {
      assert w + s == s;
    }
  }

  /** Trailing white space never changes the text `TrimEnd` keeps. */
  lemma {:induction false} TrimEndSkipsBlank(s: string, w: string)
    requires IsBlank(w)
    ensures TrimEnd(s + w) == TrimEnd(s)
    decreases |w|
  {
    if w != [] {
      var sw := s + w;
      var w' := w[..|w| - 1];
      assert sw[|sw| - 1] == w[|w| - 1];
      assert sw[..|sw| - 1] == s + w';
      assert TrimEnd(sw) == TrimEnd(s + w');
      assert forall k :: 0 <= k < |w'| ==> w'[k] == w[k];
      TrimEndSkipsBlank(s, w');
    } else {
      assert s + w == s;
    }
  }

  /** Stripping the front commutes with appending when `s` has a non-blank character. */
  lemma {:induction false} TrimStartAppend(s: string, w: string)
    requires !IsBlank(s)
    ensures TrimStart(s + w) == TrimStart(s) + w
    decreases |s|
  {
    if IsJsWhitespace(s[0]) {
      assert (s + w)[1..] == s[1..] + w;
      assert !IsBlank(s[1..]) by {
        var k :| 0 <= k < |s| && !IsJsWhitespace(s[k]);
        assert s[1..][k - 1] == s[k];
      }
      TrimStartAppend(s[1..], w);
    }
  }

  /** Blank text before `s` does not change `Trim(s)`. */
  lemma TrimBlankPrefix(w: string, s: string)
    requires IsBlank(w)
    ensures Trim(w + s) == Trim(s)
  {
    TrimStartSkipsBlank(w, s);
  }

  /** Blank text after `s` does not change `Trim(s)`. */
  lemma TrimBlankSuffix(s: string, w: string)
    requires IsBlank(w)
    ensures Trim(s + w) == Trim(s)
  {
    if IsBlank(s) {
      assert IsBlank(s + w) by {
        forall k | 0 <= k < |s + w| ensures IsJsWhitespace((s + w)[k]) {
          if k < |s| { assert (s + w)[k] == s[k]; } else { assert (s + w)[k] == w[k - |s|]; }
        }
      }
    } else {
      TrimStartAppend(s, w);
      TrimEndSkipsBlank(TrimStart(s), w);
    }
  }

  /** `Array.prototype.join`: the parts in order, with `sep` between neighbours. */
  function Join(parts: seq<string>, sep: string): (r: string)
    ensures |parts| == 0 ==> r == ""
    ensures |parts| == 1 ==> r == parts[0]
    ensures |parts| > 1 ==> |parts[0] + sep| <= |r| && r[..|parts[0] + sep|] == parts[0] + sep
    decreases |parts|
  {
    if |parts| == 0 then "" else if |parts| == 1 then parts[0] else parts[0] + sep + Join(parts[1..], sep)
  }

  /** `t` occurs in `s` starting at index `i`. */
  predicate OccursAt(s: string, t: string, i: int) {
    0 <= i && i + |t| <= |s| && s[i..i + |t|] == t
  }

  /** The least index at which `sep` occurs in `s`, or `|s|` when it does not occur. */
  function IndexOf(s: string, sep: string): (i: nat)
    requires |sep| > 0
    ensures i <= |s|
    ensures i < |s| ==> OccursAt(s, sep, i)
    ensures forall j :: 0 <= j < i ==> !OccursAt(s, sep, j)
    decreases |s|
  {
    if |s| < |sep| then |s|
    else if s[..|sep|] == sep then 0
    else
      var i := IndexOf(s[1..], sep);
      assert forall j :: 1 <= j ==> OccursAt(s, sep, j) == OccursAt(s[1..], sep, j - 1);
      1 + i
  }

  /** Cuts `s` at every occurrence of `sep`, left to right (`String.prototype.split`). */
  function Split(s: string, sep: string): (parts: seq<string>)
    requires |sep| > 0
    ensures |parts| > 0
    decreases |s|
  {
    var i := IndexOf(s, sep);
    if i == |s| then [s] else [s[..i]] + Split(s[i + |sep|..], sep)
  }

  /** A string without the separator's first character has no occurrence in front of `sep`. */
  lemma {:induction false} IndexOfAfterPart(v: string, sep: string, rest: string)
    requires |sep| > 0 && sep[0] !in v
    ensures IndexOf(v + sep + rest, sep) == |v|
    decreases |v|
  {
    var s := v + sep + rest;
    if v == [] {
      assert s[..|sep|] == sep;
    } else {
      assert s[0] == v[0] != sep[0];
      assert s[..|sep|] != sep by { assert s[..|sep|][0] == s[0]; }
      assert s[1..] == v[1..] + sep + rest;
      IndexOfAfterPart(v[1..], sep, rest);
    }
  }

  /** A string without the separator's first character does not contain the separator. */
  lemma NoIndexIn(v: string, sep: string)
    requires |sep| > 0 && sep[0] !in v
    ensures IndexOf(v, sep) == |v|
  {
    var i := IndexOf(v, sep);
    if i < |v| {
      assert false;
    }
  }

  /** Splitting cuts off a leading part that lacks the separator's first character. */
  lemma SplitAfterPart(v: string, sep: string, rest: string)
    requires |sep| > 0 && sep[0] !in v
    ensures Split(v + sep + rest, sep) == [v] + Split(rest, sep)
  {
    var s := v + sep + rest;
    IndexOfAfterPart(v, sep, rest);
    assert s[..|v|] == v;
    assert s[|v| + |sep|..] == rest;
  }

  /**
   * The joined text loses nothing: when no part contains the separator's first
   * character, splitting the joined text at `sep` gives the parts back.
   */
  lemma {:induction false} SplitJoin(parts: seq<string>, sep: string)
    requires |sep| > 0 && |parts| > 0
    requires forall k :: 0 <= k < |parts| ==> sep[0] !in parts[k]
    ensures Split(Join(parts, sep), sep) == parts
    decreases |parts|
  {
    if |parts| == 1 {
      assert Join(parts, sep) == parts[0];
      NoIndexIn(parts[0], sep);
    } else {
      var rest := Join(parts[1..], sep);
      assert Join(parts, sep) == parts[0] + sep + rest;
      SplitAfterPart(parts[0], sep, rest);
      SplitJoin(parts[1..], sep);
      assert parts == [parts[0]] + parts[1..];
    }
  }

  /** `toLowerCase` on one character, for the ASCII letters A-Z. */
  function LowerChar(c: char): (r: char)
    ensures r == c || ('A' <= c <= 'Z' && r as int == c as int + 32)
    ensures !('A' <= r <= 'Z')
  {
    if 'A' <= c <= 'Z' then (c as int + 32) as char else c
  }

  /** `toLowerCase` on a string: the same length, each character lowered in place. */
  function Lower(s: string): (r: string)
    ensures |r| == |s|
    ensures forall k :: 0 <= k < |s| ==> r[k] == LowerChar(s[k])
    decreases |s|
  {
    if s == [] then [] else [LowerChar(s[0])] + Lower(s[1..])
  }

  /** `String.prototype.includes`: `t` occurs in `s` at some position. */
  predicate Includes(s: string, t: string) {
    exists i | 0 <= i <= |s| :: OccursAt(s, t, i)
  }

  /** An occurrence survives lower-casing: if `t` occurs in `s`, `Lower(t)` occurs in `Lower(s)`. */
  lemma LowerKeepsIncludes(s: string, t: string)
    requires Includes(s, t)
    ensures Includes(Lower(s), Lower(t))
  {
    var i :| 0 <= i <= |s| && OccursAt(s, t, i);
    assert i + |t| <= |s| && s[i..i + |t|] == t;
    assert Lower(s)[i..i + |t|] == Lower(t) by {
      forall k | 0 <= k < |t| ensures Lower(s)[i..i + |t|][k] == Lower(t)[k] {
        assert s[i + k] == t[k];
      }
    }
    assert OccursAt(Lower(s), Lower(t), i);
  }
}
