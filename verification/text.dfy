/**
 The name cleaning step of the mapping builder: the expression
 `raw_name.replace(":", "").strip().lower()` of app.py, broken into its three
 Python string operations.

 Whitespace is exactly the set of code points for which Python's `str.isspace`
 holds (the set `str.strip()` removes). Lower-casing covers the ASCII and
 Latin-1 upper-case letters; every other code point is left as it is.
 */
module Text {

  /** Python's `str.isspace` on a single code point. */
  predicate IsSpace(c: char) {
    var n := c as int;
    (0x09 <= n <= 0x0D) || (0x1C <= n <= 0x20) || n == 0x85 || n == 0xA0
    || n == 0x1680 || (0x2000 <= n <= 0x200A) || n == 0x2028 || n == 0x2029
    || n == 0x202F || n == 0x205F || n == 0x3000
  }

  /** An upper-case letter that `str.lower` maps to a single other code point. */
  predicate IsUpper(c: char) {
    ('A' <= c <= 'Z') || ('\U{00C0}' <= c <= '\U{00DE}' && c != '\U{00D7}')
  }

  function LowerChar(c: char): (d: char)
    ensures !IsUpper(d)
    ensures IsSpace(d) <==> IsSpace(c)
    ensures d == ':' <==> c == ':'
    ensures !IsUpper(c) ==> d == c
  {
    if IsUpper(c) then (c as int + 32) as char else c
  }

  predicate NoColon(s: string) {
    forall i :: 0 <= i < |s| ==> s[i] != ':'
  }

  predicate AllSpace(s: string) {
    forall i :: 0 <= i < |s| ==> IsSpace(s[i])
  }

  predicate IsLower(s: string) {
    forall i :: 0 <= i < |s| ==> !IsUpper(s[i])
  }

  /** Neither end of `s` is whitespace (vacuously so for the empty string). */
  predicate Trimmed(s: string) {
    s == [] || (!IsSpace(s[0]) && !IsSpace(s[|s| - 1]))
  }

  /** `s.replace(":", "")`: every colon removed, every other character kept in order. */
  function RemoveColons(s: string): (r: string)
    ensures NoColon(r)
    ensures multiset(r) == multiset(s)[':' := 0]
    ensures NoColon(s) ==> r == s
  {
    if s == [] then []
    else
      assert s == [s[0]] + s[1..];
      if s[0] == ':' then RemoveColons(s[1..]) else [s[0]] + RemoveColons(s[1..])
  }

  /** A single character: a colon is dropped, anything else is kept. */
  lemma RemoveColonsOne(c: char)
    ensures RemoveColons([c]) == if c == ':' then [] else [c]
  {
    assert [c][1..] == [];
  }

  /** `replace` works left to right: the colon-free parts of two strings are
      kept in the order the strings come in. */
  lemma {:induction false} RemoveColonsAppend(x: string, y: string)
    ensures RemoveColons(x + y) == RemoveColons(x) + RemoveColons(y)
  {
    if x == [] {
      assert x + y == y;
    } else {
      assert (x + y)[0] == x[0];
      assert (x + y)[1..] == x[1..] + y;
      RemoveColonsAppend(x[1..], y);
    }
  }

  /** `s` holds nothing but colons and whitespace. */
  predicate OnlyColonsAndSpace(s: string) {
    forall i :: 0 <= i < |s| ==> s[i] == ':' || IsSpace(s[i])
  }

  lemma AllSpaceCons(c: char, t: string)
    ensures AllSpace([c] + t) <==> IsSpace(c) && AllSpace(t)
  {
    var u := [c] + t;
    assert u[0] == c;
    assert forall k :: 0 <= k < |t| ==> u[k + 1] == t[k];
    assert forall k :: 1 <= k < |u| ==> u[k] == t[k - 1];
  }

  lemma OnlyColonsAndSpaceCons(s: string)
    requires s != []
    ensures OnlyColonsAndSpace(s) <==> (s[0] == ':' || IsSpace(s[0])) && OnlyColonsAndSpace(s[1..])
  {
    assert forall k :: 0 <= k < |s| - 1 ==> s[1..][k] == s[k + 1];
    assert forall k :: 1 <= k < |s| ==> s[k] == s[1..][k - 1];
  }

  /** Removing colons leaves only whitespace exactly when there was nothing
      but colons and whitespace. */
  lemma {:induction false} RemoveColonsLeavesSpace(s: string)
    ensures AllSpace(RemoveColons(s)) <==> OnlyColonsAndSpace(s)
  {
    if s != [] {
      RemoveColonsLeavesSpace(s[1..]);
      OnlyColonsAndSpaceCons(s);
      if s[0] != ':' {
        AllSpaceCons(s[0], RemoveColons(s[1..]));
      }
    }
  }

  /** The number of whitespace characters `s` starts with. */
  function LeadingSpace(s: string): (n: nat)
    ensures n <= |s|
    ensures AllSpace(s[..n])
    ensures n < |s| ==> !IsSpace(s[n])
  {
    if s != [] && IsSpace(s[0]) then
      var n := LeadingSpace(s[1..]);
      assert s[..n + 1] == [s[0]] + s[1..][..n];
      1 + n
    else 0
  }

  /** The number of whitespace characters `s` ends with. */
  function TrailingSpace(s: string): (n: nat)
    ensures n <= |s|
    ensures AllSpace(s[|s| - n..])
    ensures n < |s| ==> !IsSpace(s[|s| - n - 1])
  {
    if s != [] && IsSpace(s[|s| - 1]) then
      var init := s[..|s| - 1];
      var n := TrailingSpace(init);
      assert s[|s| - (n + 1)..] == init[|init| - n..] + [s[|s| - 1]];
      1 + n
    else 0
  }

  /** `r` is the slice of `s` at offset `i` with only whitespace on either side. */
  ghost predicate SliceBetweenSpace(s: string, r: string, i: nat) {
    && i + |r| <= |s|
    && s[i..i + |r|] == r
    && AllSpace(s[..i])
    && AllSpace(s[i + |r|..])
  }

  lemma AllSpaceAppend(x: string, y: string)
    ensures AllSpace(x + y) <==> AllSpace(x) && AllSpace(y)
  {
    assert forall k :: 0 <= k < |x| ==> (x + y)[k] == x[k];
    assert forall k :: 0 <= k < |y| ==> (x + y)[|x| + k] == y[k];
  }

  /** `s.strip()`: leading whitespace removed, then trailing whitespace. */
  function Strip(s: string): (r: string)
    ensures Trimmed(r)
    ensures exists i :: SliceBetweenSpace(s, r, i)
    ensures r == [] <==> AllSpace(s)
  {
    var a := LeadingSpace(s);
    var t := s[a..];
    var b := TrailingSpace(t);
    var r := t[..|t| - b];
    assert s[a + |r|..] == t[|t| - b..];
    assert s[a..a + |r|] == r;
    assert SliceBetweenSpace(s, r, a);
    assert r == [] ==> AllSpace(s) by {
      if r == [] {
        assert s == s[..a] + t[|t| - b..];
        AllSpaceAppend(s[..a], t[|t| - b..]);
      }
    }
    r
  }

  /** `s.lower()` on the ASCII and Latin-1 capitals, which Python lowers one code point at a time. */
  function Lower(s: string): (r: string)
    ensures |r| == |s|
    ensures IsLower(r)
    ensures forall i :: 0 <= i < |s| ==> (IsSpace(r[i]) <==> IsSpace(s[i]))
    ensures forall i :: 0 <= i < |s| ==> (r[i] == ':' <==> s[i] == ':')
    ensures IsLower(s) ==> r == s
    ensures forall i :: 0 <= i < |s| && !IsUpper(s[i]) ==> r[i] == s[i]
    ensures forall i :: 0 <= i < |s| && IsUpper(s[i]) ==> r[i] as int == s[i] as int + 32
  {
    seq(|s|, i requires 0 <= i < |s| => LowerChar(s[i]))
  }

  /** Lower-casing works character by character: it distributes over concatenation. */
  lemma LowerAppend(x: string, y: string)
    ensures Lower(x + y) == Lower(x) + Lower(y)
  {
    assert forall k :: 0 <= k < |x| ==> (x + y)[k] == x[k];
    assert forall k :: 0 <= k < |y| ==> (x + y)[|x| + k] == y[k];
  }

  /** A name that cleaning leaves as it is. */
  predicate IsClean(s: string) {
    NoColon(s) && Trimmed(s) && IsLower(s)
  }

  /** `raw_name.replace(":", "").strip().lower()` (app.py line 41). */
  function Clean(s: string): (r: string)
    ensures IsClean(r)
    ensures r == [] <==> OnlyColonsAndSpace(s)
  {
    RemoveColonsLeavesSpace(s);
    Lower(Strip(RemoveColons(s)))
  }

  /** Stripping is pinned down by its specification: a slice with whitespace on
      both sides and no whitespace at its ends is the stripped string. */
  lemma {:induction false} StripUnique(s: string, r: string, i: nat)
    requires SliceBetweenSpace(s, r, i)
    requires Trimmed(r)
    ensures Strip(s) == r
  {
    if r == [] {
      assert AllSpace(s) by {
        forall k | 0 <= k < |s| ensures IsSpace(s[k]) {
          if k < i { assert s[k] == s[..i][k]; }
          else { assert s[k] == s[i..][k - i]; }
        }
      }
    } else {
      var a := LeadingSpace(s);
      assert s[i] == r[0];
      assert a == i;
      var t := s[a..];
      var b := TrailingSpace(t);
      var j := i + |r|;
      assert t[|r| - 1] == r[|r| - 1];
      assert s[j..] == t[|r|..];
      assert |t| - b == |r|;
    }
  }

  /** A name that is already clean comes back from cleaning unchanged, and only
      such names do. */
  lemma {:induction false} CleanFixedPoint(s: string)
    ensures Clean(s) == s <==> IsClean(s)
  {
    if IsClean(s) {
      assert RemoveColons(s) == s;
      assert SliceBetweenSpace(s, s, 0) by {
        assert s[..0] == [] && s[|s|..] == [] && s[0..|s|] == s;
      }
      StripUnique(s, s, 0);
    }
  }

  /** Cleaning is idempotent. */
  lemma CleanIdempotent(s: string)
    ensures Clean(Clean(s)) == Clean(s)
  {
    CleanFixedPoint(Clean(s));
  }
}
