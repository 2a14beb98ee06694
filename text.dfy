/** The JavaScript string primitives the chat component relies on:
    `String.prototype.trim`, `String.prototype.toLowerCase` (over ASCII),
    `String.prototype.includes` and `Array.prototype.join`. */
module Text {

  /** The characters `trim` removes: ECMAScript WhiteSpace and LineTerminator. */
  predicate IsSpace(c: char) {
    || c == ' ' || c == '\t' || c == '\n' || c == '\r'
    || c == '\U{B}' || c == '\U{C}' || c == '\U{A0}' || c == '\U{1680}'
    || ('\U{2000}' <= c <= '\U{200A}')
    || c == '\U{2028}' || c == '\U{2029}' || c == '\U{202F}' || c == '\U{205F}'
    || c == '\U{3000}' || c == '\U{FEFF}'
  }

  predicate AllSpace(s: string) {
    forall k :: 0 <= k < |s| ==> IsSpace(s[k])
  }

  /** Neither end of `s` is white space. */
  predicate IsTrimmed(s: string) {
    s == [] || (!IsSpace(s[0]) && !IsSpace(s[|s| - 1]))
  }

  /** Drops leading white space: the result is the longest suffix of `s`
      that does not start with white space. */
  function TrimStart(s: string): (r: string)
    ensures |r| <= |s| && r == s[|s| - |r|..]
    ensures AllSpace(s[..|s| - |r|])
    ensures r == [] || !IsSpace(r[0])
    decreases |s|
  {
    if |s| > 0 && IsSpace(s[0]) then TrimStart(s[1..]) else s
  }

  /** Drops trailing white space: the result is the longest prefix of `s`
      that does not end with white space. */
  function TrimEnd(s: string): (r: string)
    ensures |r| <= |s| && r == s[..|r|]
    ensures AllSpace(s[|r|..])
    ensures r == [] || !IsSpace(r[|r| - 1])
    decreases |s|
  {
    if |s| > 0 && IsSpace(s[|s| - 1]) then TrimEnd(s[..|s| - 1]) else s
  }

  /** `String.prototype.trim`: never longer than its input, and neither end
      of the result is white space. */
  function Trim(s: string): (r: string)
    ensures |r| <= |s|
    ensures IsTrimmed(r)
  {
    var t := TrimStart(s);
    var r := TrimEnd(t);
    assert r != [] ==> r[0] == t[0];
    r
  }

  /** Trim cuts white space off both ends and nothing else: the result is a
      slice of `s` and everything cut away is white space. */
  lemma TrimIsSlice(s: string) returns (i: nat, j: nat)
    ensures i <= j <= |s| && Trim(s) == s[i..j]
    ensures AllSpace(s[..i]) && AllSpace(s[j..])
  {
    var t := TrimStart(s);
    var r := TrimEnd(t);
    i, j := |s| - |t|, |s| - |t| + |r|;
    assert t[..|r|] == s[i..j];
    assert s[j..] == t[|r|..];
  }

  /** A string trims to the empty string exactly when it is all white space. */
  lemma TrimEmptyIff(s: string)
    ensures Trim(s) == "" <==> AllSpace(s)
  {
    var i, j := TrimIsSlice(s);
    if Trim(s) == "" {
      forall k | 0 <= k < |s| ensures IsSpace(s[k]) {
        if k < i { assert s[k] == s[..i][k]; } else { assert s[k] == s[j..][k - j]; }
      }
    } else {
      assert !IsSpace(s[i]);
    }
  }

  /** ASCII case folding of one character. */
  function LowerChar(c: char): char {
    if 'A' <= c <= 'Z' then (c as int + 32) as char else c
  }

  /** `String.prototype.toLowerCase`, restricted to ASCII letters: no
      upper-case ASCII letter survives, every upper-case ASCII letter becomes
      its lower-case partner and every other character is kept. */
  function ToLower(s: string): (r: string)
    ensures |r| == |s|
    ensures forall k :: 0 <= k < |r| ==> !('A' <= r[k] <= 'Z')
    ensures forall k :: 0 <= k < |s| && !('A' <= s[k] <= 'Z') ==> r[k] == s[k]
    ensures forall k :: 0 <= k < |s| && 'A' <= s[k] <= 'Z' ==> r[k] as int == s[k] as int + 32
  {
    seq(|s|, k requires 0 <= k < |s| => LowerChar(s[k]))
  }

  /** Lower-casing an already lower-cased string changes nothing. */
  lemma ToLowerIdempotent(s: string)
    ensures ToLower(ToLower(s)) == ToLower(s)
  {
  }

  predicate StartsWith(s: string, p: string) {
    |p| <= |s| && s[..|p|] == p
  }

  /** `String.prototype.includes`: `p` occurs somewhere in `s`. A contained
      word is never longer than the text, and the empty word is contained in
      every text. */
  predicate Contains(s: string, p: string)
    ensures Contains(s, p) ==> |p| <= |s|
    ensures p == [] ==> Contains(s, p)
    decreases |s|
  {
    StartsWith(s, p) || (|s| > 0 && Contains(s[1..], p))
  }

  /** `p` occurs in `s` starting at index `i`. */
  ghost predicate OccursAt(s: string, p: string, i: int) {
    0 <= i && i + |p| <= |s| && s[i..i + |p|] == p
  }

  /** Contains is exactly "occurs at some index". */
  lemma {:induction false} ContainsIff(s: string, p: string)
    ensures Contains(s, p) <==> exists i :: OccursAt(s, p, i)
    decreases |s|
  {
    if Contains(s, p) {
      if StartsWith(s, p) {
        assert OccursAt(s, p, 0);
      } else {
        ContainsIff(s[1..], p);
        var i :| OccursAt(s[1..], p, i);
        assert s[1..][i..i + |p|] == s[i + 1..i + 1 + |p|];
        assert OccursAt(s, p, i + 1);
      }
    }
    if exists i :: OccursAt(s, p, i) {
      var i :| OccursAt(s, p, i);
      if i > 0 {
        assert s[1..][i - 1..i - 1 + |p|] == s[i..i + |p|];
        assert OccursAt(s[1..], p, i - 1);
        ContainsIff(s[1..], p);
      }
    }
  }

  /** An occurrence in `y` is an occurrence in `x + y`. */
  lemma {:induction false} ContainsInSuffix(x: string, y: string, p: string)
    requires Contains(y, p)
    ensures Contains(x + y, p)
    decreases |x|
  {
    if x != [] {
      assert (x + y)[1..] == x[1..] + y;
      ContainsInSuffix(x[1..], y, p);
    } else {
      assert x + y == y;
    }
  }

  /** An occurrence in `x` is an occurrence in `x + y`. */
  lemma {:induction false} ContainsInPrefix(x: string, y: string, p: string)
    requires Contains(x, p)
    ensures Contains(x + y, p)
    decreases |x|
  {
    if StartsWith(x, p) {
      assert (x + y)[..|p|] == x[..|p|];
    } else {
      assert (x + y)[1..] == x[1..] + y;
      ContainsInPrefix(x[1..], y, p);
    }
  }

  /** A string occurs in any text that has it in the middle. */
  lemma ContainsMiddle(x: string, p: string, y: string)
    ensures Contains(x + p + y, p)
  {
    assert StartsWith(p, p);
    ContainsInPrefix(p, y, p);
    ContainsInSuffix(x, p + y, p);
    assert x + (p + y) == x + p + y;
  }

  /** `Array.prototype.join(sep)`: the parts with `sep` between neighbours;
      the empty array joins to the empty string, and a non-empty one starts
      with its first part. */
  function Join(parts: seq<string>, sep: string): (r: string)
    ensures |parts| == 0 ==> r == ""
    ensures |parts| > 0 ==> StartsWith(r, parts[0])
    decreases |parts|
  {
    if |parts| == 0 then ""
    else if |parts| == 1 then parts[0]
    else parts[0] + sep + Join(parts[1..], sep)
  }

  /** Every part preceded by `sep`, concatenated. */
  function Prefixed(parts: seq<string>, sep: string): string
    decreases |parts|
  {
    if |parts| == 0 then "" else sep + parts[0] + Prefixed(parts[1..], sep)
  }

  /** Joining a non-empty list is its head followed by `sep + part` for every
      later part, in order. */
  lemma {:induction false} JoinCons(h: string, t: seq<string>, sep: string)
    ensures Join([h] + t, sep) == h + Prefixed(t, sep)
    decreases |t|
  {
    if t != [] {
      assert ([h] + t)[1..] == t;
      assert t == [t[0]] + t[1..];
      JoinCons(t[0], t[1..], sep);
    }
  }

  /** Every part of a join occurs in the joined string. */
  lemma {:induction false} JoinContainsPart(parts: seq<string>, sep: string, k: nat)
    requires k < |parts|
    ensures Contains(Join(parts, sep), parts[k])
    decreases |parts|
  {
    if |parts| == 1 {
      assert StartsWith(parts[0], parts[0]);
    } else if k == 0 {
      ContainsInPrefix(parts[0], sep + Join(parts[1..], sep), parts[0]) by {
        assert StartsWith(parts[0], parts[0]);
      }
      assert parts[0] + (sep + Join(parts[1..], sep)) == Join(parts, sep);
    } else {
      JoinContainsPart(parts[1..], sep, k - 1);
      ContainsInSuffix(parts[0] + sep, Join(parts[1..], sep), parts[k]);
    }
  }

  /** Prefixing distributes over concatenation. */
  lemma {:induction false} PrefixedAppend(a: seq<string>, b: seq<string>, sep: string)
    ensures Prefixed(a + b, sep) == Prefixed(a, sep) + Prefixed(b, sep)
    decreases |a|
  {
    if a != [] {
      assert (a + b)[1..] == a[1..] + b;
      PrefixedAppend(a[1..], b, sep);
    } else {
      assert a + b == b;
    }
  }

  /** Joining a head and three runs of parts. */
  lemma JoinLayout(h: string, a: seq<string>, b: seq<string>, c: seq<string>, sep: string)
    ensures Join([h] + (a + b + c), sep) == h + Prefixed(a, sep) + Prefixed(b, sep) + Prefixed(c, sep)
  {
    JoinCons(h, a + b + c, sep);
    PrefixedAppend(a + b, c, sep);
    PrefixedAppend(a, b, sep);
    AppendAssoc(h, Prefixed(a, sep), Prefixed(b, sep), Prefixed(c, sep));
  }

  lemma AppendAssoc(h: string, x: string, y: string, z: string)
    ensures h + (x + y + z) == h + x + y + z
  {
  }

  /** A string starts with its own prefix, and the concatenation equals the
      prefix exactly when nothing is appended. */
  lemma StartsWithAppend(x: string, y: string)
    ensures StartsWith(x + y, x)
    ensures x + y == x <==> y == ""
  {
    assert (x + y)[..|x|] == x;
    if x + y == x {
      assert |y| == 0;
    }
  }

  /** With a non-empty separator, the prefixed parts are empty exactly when
      there are no parts. */
  lemma PrefixedEmptyIff(parts: seq<string>, sep: string)
    requires sep != ""
    ensures Prefixed(parts, sep) == "" <==> parts == []
  {
  }

  /** Every part after the head of a join occurs in the joined string. */
  lemma JoinContainsLaterPart(h: string, t: seq<string>, sep: string, k: nat)
    requires k < |t|
    ensures Contains(Join([h] + t, sep), t[k])
  {
    assert ([h] + t)[k + 1] == t[k];
    JoinContainsPart([h] + t, sep, k + 1);
  }
}
