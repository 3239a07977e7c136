/** The JavaScript string operations the core relies on: `trim`, ASCII
    `toLowerCase`, `includes`, `split` on one character and `join`. */
module Strings {

  /** JavaScript's WhiteSpace and LineTerminator characters: the set that
      `String.prototype.trim` removes and that the regular expression `\s` matches. */
  predicate IsWhitespace(c: char) {
    c == ' ' || c == '\t' || c == '\n' || c == '\U{000B}' || c == '\U{000C}' || c == '\r'
    || c == '\U{00A0}' || c == '\U{1680}' || ('\U{2000}' <= c <= '\U{200A}')
    || c == '\U{2028}' || c == '\U{2029}' || c == '\U{202F}' || c == '\U{205F}'
    || c == '\U{3000}' || c == '\U{FEFF}'
  }

  predicate NoWhitespace(s: string) {
    forall i :: 0 <= i < |s| ==> !IsWhitespace(s[i])
  }

  /** No leading and no trailing whitespace. */
  predicate IsTrimmed(s: string) {
    |s| > 0 ==> !IsWhitespace(s[0]) && !IsWhitespace(s[|s| - 1])
  }

  /** Drops the leading whitespace: what remains is a suffix of `s`, every dropped
      character is whitespace and the suffix does not start with whitespace. */
  function TrimStart(s: string): (r: string)
    ensures |r| <= |s| && r == s[|s| - |r|..]
    ensures forall i :: 0 <= i < |s| - |r| ==> IsWhitespace(s[i])
    ensures |r| > 0 ==> !IsWhitespace(r[0])
  {
    if |s| > 0 && IsWhitespace(s[0]) then TrimStart(s[1..]) else s
  }

  /** Drops the trailing whitespace: what remains is a prefix of `s`, every dropped
      character is whitespace and the prefix does not end with whitespace. */
  function TrimEnd(s: string): (r: string)
    ensures |r| <= |s| && r == s[..|r|]
    ensures forall i :: |r| <= i < |s| ==> IsWhitespace(s[i])
    ensures |r| > 0 ==> !IsWhitespace(r[|r| - 1])
  {
    if |s| > 0 && IsWhitespace(s[|s| - 1]) then TrimEnd(s[..|s| - 1]) else s
  }

  /** `sub` occurs in `s` starting at position `i`. */
  predicate OccursAt(s: string, sub: string, i: int) {
    0 <= i <= |s| - |sub| && s[i..i + |sub|] == sub
  }

  /** `r` is `s` with whitespace, and only whitespace, cut from both ends. */
  predicate TrimmedFrom(s: string, r: string, i: int) {
    OccursAt(s, r, i) && NoneButWhitespace(s[..i]) && NoneButWhitespace(s[i + |r|..])
  }

  predicate NoneButWhitespace(s: string) {
    forall k :: 0 <= k < |s| ==> IsWhitespace(s[k])
  }

  /** Leading whitespace of `a` is cut; once `a` has another character, `b` is untouched. */
  lemma {:induction false} TrimStartAppendWord(a: string, b: string)
    requires !NoneButWhitespace(a)
    ensures TrimStart(a + b) == TrimStart(a) + b
    decreases |a|
  {
    assert (a + b)[0] == a[0];
    if IsWhitespace(a[0]) {
      assert (a + b)[1..] == a[1..] + b;
      TrimStartAppendWord(a[1..], b);
    }
  }

  /** A whitespace-only prefix is cut entirely. */
  lemma {:induction false} TrimStartAppendSpace(a: string, b: string)
    requires NoneButWhitespace(a)
    ensures TrimStart(a + b) == TrimStart(b)
    decreases |a|
  {
    if |a| == 0 {
      assert a + b == b;
    } else {
      assert (a + b)[0] == a[0];
      assert (a + b)[1..] == a[1..] + b;
      TrimStartAppendSpace(a[1..], b);
    }
  }

  /** `s.trim()`: no longer than `s`, and neither starts nor ends with
      whitespace (see `TrimCutsWhitespace` for where it sits in `s`). */
  function Trim(s: string): (r: string)
    ensures |r| <= |s|
    ensures IsTrimmed(r)
  {
    TrimEnd(TrimStart(s))
  }

  /** What `Trim` keeps is a contiguous piece of `s` with only whitespace around it. */
  lemma TrimCutsWhitespace(s: string)
    ensures exists i :: TrimmedFrom(s, Trim(s), i)
  {
    var t := TrimStart(s);
    var r := TrimEnd(t);
    var i := |s| - |t|;
    FrontCutIsWhitespace(s);
    BackCutIsWhitespace(t);
    assert s[i..i + |r|] == s[i..][..|r|];
    assert s[i + |r|..] == t[|r|..];
    assert TrimmedFrom(s, r, i);
    assert r == Trim(s);
  }

  lemma FrontCutIsWhitespace(s: string)
    ensures NoneButWhitespace(s[..|s| - |TrimStart(s)|])
  {
    var i := |s| - |TrimStart(s)|;
    assert forall k :: 0 <= k < i ==> s[..i][k] == s[k];
  }

  lemma BackCutIsWhitespace(t: string)
    ensures NoneButWhitespace(t[|TrimEnd(t)|..])
  {
    var n := |TrimEnd(t)|;
    assert forall k :: 0 <= k < |t| - n ==> t[n..][k] == t[n + k];
  }

  /** A string that neither starts nor ends with whitespace is its own trim. */
  lemma TrimOfTrimmed(s: string)
    requires IsTrimmed(s)
    ensures Trim(s) == s
  {
    assert TrimStart(s) == s;
  }

  /** Trimming twice is trimming once. */
  lemma TrimIdempotent(s: string)
    ensures Trim(Trim(s)) == Trim(s)
  {
    TrimOfTrimmed(Trim(s));
  }

  /** One leading space in front of a trimmed, non-empty string is trimmed away. */
  lemma TrimLeadingSpace(t: string)
    requires |t| > 0 && IsTrimmed(t)
    ensures Trim(" " + t) == t
  {
    assert (" " + t)[1..] == t;
    assert TrimStart(" " + t) == TrimStart(t) == t;
  }

  predicate IsUpper(c: char) { 'A' <= c <= 'Z' }

  function LowerChar(c: char): char {
    if IsUpper(c) then (c as int + 32) as char else c
  }

  /** `s.toLowerCase()` restricted to ASCII: letters A-Z become a-z, every other
      character is kept. */
  function ToLower(s: string): (r: string)
    ensures |r| == |s|
    ensures forall i :: 0 <= i < |s| ==> r[i] == LowerChar(s[i])
  {
    seq(|s|, i requires 0 <= i < |s| => LowerChar(s[i]))
  }

  /** `s.includes(sub)`: `sub` occurs in `s` at some position. */
  function Contains(s: string, sub: string): (b: bool)
    ensures b <==> exists i :: OccursAt(s, sub, i)
  {
    if |sub| <= |s| && s[..|sub|] == sub then
      assert OccursAt(s, sub, 0);
      true
    else if |s| == 0 then
      assert forall i :: !OccursAt(s, sub, i);
      false
    else
      var b := Contains(s[1..], sub);
      assert forall i :: OccursAt(s, sub, i) <==> i >= 1 && OccursAt(s[1..], sub, i - 1) by {
        forall i ensures OccursAt(s, sub, i) <==> i >= 1 && OccursAt(s[1..], sub, i - 1) {
          if 1 <= i <= |s| - |sub| {
            var here, there := s[i..i + |sub|], s[1..][i - 1..i - 1 + |sub|];
            assert forall k :: 0 <= k < |sub| ==> here[k] == there[k];
            assert here == there;
          }
        }
      }
      if b then
        var j :| OccursAt(s[1..], sub, j);
        assert OccursAt(s, sub, j + 1);
        b
      else
        b
  }

  /** `s.split(sep)` for a one-character separator: the pieces between the
      separators, one more piece than there are separators. */
  function Split(s: string, sep: char): (pieces: seq<string>)
    ensures |pieces| >= 1
    ensures forall k :: 0 <= k < |pieces| ==> sep !in pieces[k]
  {
    if |s| == 0 then [""]
    else if s[0] == sep then [""] + Split(s[1..], sep)
    else
      var rest := Split(s[1..], sep);
      [[s[0]] + rest[0]] + rest[1..]
  }

  /** `xs.join(sep)`. */
  function Join(xs: seq<string>, sep: string): string {
    if |xs| == 0 then ""
    else if |xs| == 1 then xs[0]
    else xs[0] + sep + Join(xs[1..], sep)
  }

  /** Splitting the joined list gives back the first element and, after it, every
      other element with the space of the separator ", " still in front. */
  lemma {:induction false} SplitJoin(xs: seq<string>)
    requires |xs| > 0
    requires forall k :: 0 <= k < |xs| ==> ',' !in xs[k]
    ensures |Split(Join(xs, ", "), ',')| == |xs|
    ensures Split(Join(xs, ", "), ',')[0] == xs[0]
    ensures forall k :: 1 <= k < |xs| ==> Split(Join(xs, ", "), ',')[k] == " " + xs[k]
  {
    if |xs| == 1 {
      SplitNoSeparator(xs[0], ',');
    } else {
      var tail := Join(xs[1..], ", ");
      SplitJoin(xs[1..]);
      var rest := Split(tail, ',');
      assert Join(xs, ", ") == xs[0] + [','] + (" " + tail);
      SplitAround(xs[0], " " + tail, ',');
      SplitSpaceFront(tail, ',');
      var all := Split(Join(xs, ", "), ',');
      assert all == [xs[0]] + ([" " + rest[0]] + rest[1..]);
      forall k | 1 <= k < |xs|
        ensures all[k] == " " + xs[k]
      {
        if k > 1 {
          assert all[k] == rest[k - 1];
        }
      }
    }
  }

  /** A leading space that is not the separator joins the first piece. */
  lemma SplitSpaceFront(t: string, sep: char)
    requires sep != ' '
    ensures Split(" " + t, sep) == [" " + Split(t, sep)[0]] + Split(t, sep)[1..]
  {
    assert (" " + t)[1..] == t;
  }

  /** A string without the separator splits into itself. */
  lemma {:induction false} SplitNoSeparator(s: string, sep: char)
    requires sep !in s
    ensures Split(s, sep) == [s]
  {
    if |s| > 0 {
      SplitNoSeparator(s[1..], sep);
      assert [s[0]] + s[1..] == s;
    }
  }

  /** Splitting around one separator splits each side on its own: the pieces of
      `a`, then the pieces of `b`. */
  lemma {:induction false} SplitAppend(a: string, b: string, sep: char)
    ensures Split(a + [sep] + b, sep) == Split(a, sep) + Split(b, sep)
    decreases |a|
  {
    if |a| == 0 {
      assert a + [sep] + b == [sep] + b;
      assert ([sep] + b)[1..] == b;
    } else {
      assert (a + [sep] + b)[0] == a[0];
      assert (a + [sep] + b)[1..] == a[1..] + [sep] + b;
      SplitAppend(a[1..], b, sep);
    }
  }

  /** A separator after a separator-free prefix ends the first piece. */
  lemma {:induction false} SplitAround(a: string, b: string, sep: char)
    requires sep !in a
    ensures Split(a + [sep] + b, sep) == [a] + Split(b, sep)
  {
    if |a| == 0 {
      assert a + [sep] + b == [sep] + b;
      assert ([sep] + b)[1..] == b;
    } else {
      SplitAround(a[1..], b, sep);
      assert (a + [sep] + b)[1..] == a[1..] + [sep] + b;
      assert [a[0]] + a[1..] == a;
    }
  }

  /** A character outside the Basic Multilingual Plane, which UTF-16 stores
      as a surrogate pair. */
  predicate AboveBmp(c: char) {
    c > '\U{FFFF}'
  }

  /** `s.length`: JavaScript counts UTF-16 code units, one per character of
      the Basic Multilingual Plane and two per character above it. */
  function Utf16Length(s: string): (n: nat)
    ensures |s| <= n <= 2 * |s|
  {
    if |s| == 0 then 0
    else (if AboveBmp(s[0]) then 2 else 1) + Utf16Length(s[1..])
  }

  /** The code units of a joined string are those of its parts. */
  lemma {:induction false} Utf16LengthAppend(a: string, b: string)
    ensures Utf16Length(a + b) == Utf16Length(a) + Utf16Length(b)
    decreases |a|
  {
    if |a| == 0 {
      assert a + b == b;
    } else {
      assert (a + b)[1..] == a[1..] + b;
      Utf16LengthAppend(a[1..], b);
    }
  }

  /** Every character above the Basic Multilingual Plane adds one code unit
      to the character count, so the two agree exactly on text without them. */
  lemma {:induction false} Utf16LengthCountsPairs(s: string)
    ensures Utf16Length(s) == |s| + |CharsAboveBmp(s)|
    ensures Utf16Length(s) == |s| <==> forall i :: 0 <= i < |s| ==> !AboveBmp(s[i])
  {
    if |s| > 0 {
      Utf16LengthCountsPairs(s[1..]);
      assert forall i :: 1 <= i < |s| ==> s[1..][i - 1] == s[i];
    }
  }

  /** The characters of `s` that UTF-16 stores as surrogate pairs, in order. */
  function CharsAboveBmp(s: string): (r: string)
    ensures |r| <= |s|
  {
    if |s| == 0 then ""
    else (if AboveBmp(s[0]) then [s[0]] else "") + CharsAboveBmp(s[1..])
  }

  /** Decimal digits of a natural number, as `${n}` prints them. */
  function NatToString(n: nat): (s: string)
    ensures |s| > 0
    ensures forall i :: 0 <= i < |s| ==> '0' <= s[i] <= '9'
  {
    var d := ['0' + (n % 10) as char];
    if n < 10 then d else NatToString(n / 10) + d
  }

  /** `${n}` for an integer: a minus sign in front of the digits when negative. */
  function IntToString(n: int): string {
    if n < 0 then "-" + NatToString(-n) else NatToString(n)
  }
}
