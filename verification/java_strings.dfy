/** The few java.lang.String operations the core relies on: `trim`, the
    "null or blank" test, `contains` and ASCII case mapping. */
module JavaStrings {
  import opened Base

  /** Java's `trim` treats every character up to U+0020 as white space. */
  predicate IsTrimmable(c: char) {
    c <= ' '
  }

  function TrimStart(s: string): (r: string)
    ensures |r| <= |s|
    ensures r == s[|s| - |r|..]
    ensures r != [] ==> !IsTrimmable(r[0])
  {
    if s == [] then s
    else if IsTrimmable(s[0]) then TrimStart(s[1..])
    else s
  }

  function TrimEnd(s: string): (r: string)
    ensures |r| <= |s|
    ensures r == s[..|r|]
    ensures r != [] ==> !IsTrimmable(r[|r| - 1])
  {
    if s == [] then s
    else if IsTrimmable(s[|s| - 1]) then TrimEnd(s[..|s| - 1])
    else s
  }

  /** `String.trim()`: strips leading and trailing white space. */
  function Trim(s: string): (r: string)
    ensures |r| <= |s|
    ensures r != [] ==> !IsTrimmable(r[0]) && !IsTrimmable(r[|r| - 1])
  {
    var t := TrimStart(s);
    var r := TrimEnd(t);
    assert r != [] ==> r[0] == t[0];
    r
  }

  /** The test `isNull(s) || s.trim().isEmpty()` used throughout the core. */
  predicate IsBlank(s: Option<string>) {
    s.None? || Trim(s.value) == []
  }

  /** A string is blank after `trim` exactly when every character is white space. */
  lemma {:induction false} TrimStartEmptyIff(s: string)
    ensures TrimStart(s) == [] <==> forall i :: 0 <= i < |s| ==> IsTrimmable(s[i])
  {
    if s != [] && IsTrimmable(s[0]) {
      TrimStartEmptyIff(s[1..]);
      assert forall i :: 1 <= i < |s| ==> s[i] == s[1..][i - 1];
    }
  }

  lemma TrimEmptyIff(s: string)
    ensures Trim(s) == [] <==> forall i :: 0 <= i < |s| ==> IsTrimmable(s[i])
  {
    TrimStartEmptyIff(s);
    var t := TrimStart(s);
    if t != [] {
      assert TrimEnd(t) != [] by {
        if TrimEnd(t) == [] {
          TrimEndEmptyOnlyIfAllTrimmable(t);
        }
      }
    }
  }

  lemma {:induction false} TrimEndEmptyOnlyIfAllTrimmable(s: string)
    requires TrimEnd(s) == []
    ensures forall i :: 0 <= i < |s| ==> IsTrimmable(s[i])
  {
    if s != [] {
      TrimEndEmptyOnlyIfAllTrimmable(s[..|s| - 1]);
      assert forall i :: 0 <= i < |s| - 1 ==> s[i] == s[..|s| - 1][i];
    }
  }

  /** A string with a visible character is never blank. */
  lemma NotBlankWhenVisible(s: string, i: nat)
    requires i < |s| && !IsTrimmable(s[i])
    ensures !IsBlank(Some(s))
  {
    TrimEmptyIff(s);
  }

  /** Appending text to a non-blank string keeps it non-blank. */
  lemma NotBlankConcat(a: string, b: string)
    requires !IsBlank(Some(a))
    ensures !IsBlank(Some(a + b))
  {
    TrimEmptyIff(a);
    var i :| 0 <= i < |a| && !IsTrimmable(a[i]);
    assert (a + b)[i] == a[i];
    NotBlankWhenVisible(a + b, i);
  }

  /** `String.contains` with a one-character argument. */
  predicate ContainsChar(s: string, c: char) {
    c in s
  }

  /** `Character.toUpperCase` restricted to ASCII letters. */
  function UpperAscii(c: char): (r: char)
    ensures 'a' <= c <= 'z' ==> 'A' <= r <= 'Z' && r as int == c as int - 32
    ensures !('a' <= c <= 'z') ==> r == c
  {
    if 'a' <= c <= 'z' then (c as int - 32) as char else c
  }

  /** `Character.toLowerCase` restricted to ASCII letters. */
  function LowerAscii(c: char): (r: char)
    ensures 'A' <= c <= 'Z' ==> 'a' <= r <= 'z' && r as int == c as int + 32
    ensures !('A' <= c <= 'Z') ==> r == c
  {
    if 'A' <= c <= 'Z' then (c as int + 32) as char else c
  }

  /** `String.toUpperCase`, ASCII letters only. */
  function UpperString(s: string): (r: string)
    ensures |r| == |s|
    ensures forall i :: 0 <= i < |s| ==> r[i] == UpperAscii(s[i])
  {
    if s == [] then [] else [UpperAscii(s[0])] + UpperString(s[1..])
  }

  /** `String.toLowerCase`, ASCII letters only. */
  function LowerString(s: string): (r: string)
    ensures |r| == |s|
    ensures forall i :: 0 <= i < |s| ==> r[i] == LowerAscii(s[i])
  {
    if s == [] then [] else [LowerAscii(s[0])] + LowerString(s[1..])
  }
}
