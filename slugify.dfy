/** `slugify` (src/utils/slugify.ts): trim, lower-case, turn each whitespace run
    into '-', then delete every character outside `[A-Za-z0-9_-]`. */
module Slugify {
  import opened Strings
  import Sequences

  /** `\w`: ASCII letters, digits and the underscore. */
  predicate IsWordChar(c: char) {
    'a' <= c <= 'z' || 'A' <= c <= 'Z' || '0' <= c <= '9' || c == '_'
  }

  /** The characters a slug is made of. */
  predicate IsSlugChar(c: char) {
    'a' <= c <= 'z' || '0' <= c <= '9' || c == '_' || c == '-'
  }

  predicate IsSlug(s: string) {
    forall i :: 0 <= i < |s| ==> IsSlugChar(s[i])
  }

  /** `replace(/\s+/g, '-')`: every maximal whitespace run becomes one '-', every
      other character is kept. */
  function CollapseWs(s: string): (r: string)
    ensures |r| <= |s|
    ensures NoWhitespace(r)
    decreases |s|
  {
    if |s| == 0 then ""
    else if IsWhitespace(s[0]) then "-" + CollapseWs(TrimStart(s[1..]))
    else [s[0]] + CollapseWs(s[1..])
  }

  /** Every character of `r` is '-' or one of the characters of `s`. */
  predicate FromChars(r: string, s: string) {
    forall i :: 0 <= i < |r| ==> r[i] == '-' || r[i] in s
  }

  /** Collapsing brings in no character but '-': every other character of the
      result comes from `s`. */
  lemma {:induction false} CollapseWsKeepsChars(s: string)
    ensures FromChars(CollapseWs(s), s)
    decreases |s|
  {
    if |s| > 0 {
      CollapseWsStep(s);
      if IsWhitespace(s[0]) {
        var rest := TrimStart(s[1..]);
        CollapseWsKeepsChars(rest);
        assert rest == s[|s| - |rest|..];
        FromCharsCons('-', CollapseWs(rest), s, |s| - |rest|);
      } else {
        CollapseWsKeepsChars(s[1..]);
        FromCharsCons(s[0], CollapseWs(s[1..]), s, 1);
      }
    }
  }

  /** Putting '-' or a character of `s` in front keeps `FromChars`, and so does
      widening a suffix of `s` to all of it. */
  lemma FromCharsCons(h: char, x: string, s: string, k: nat)
    requires k <= |s| && FromChars(x, s[k..])
    requires h == '-' || h in s
    ensures FromChars([h] + x, s)
  {
    forall i | 0 <= i < |x| && x[i] != '-' ensures x[i] in s {
      var j :| 0 <= j < |s[k..]| && s[k..][j] == x[i];
      assert s[k + j] == x[i];
    }
  }

  /** `replace(/[^\w-]/g, '')`: keeps word characters and '-', in order. */
  function KeepWord(s: string): (r: string)
    ensures |r| <= |s|
    ensures forall i :: 0 <= i < |r| ==> (IsWordChar(r[i]) || r[i] == '-') && r[i] in s
  {
    if |s| == 0 then ""
    else
      assert forall c :: c in s[1..] ==> c in s;
      if IsWordChar(s[0]) || s[0] == '-' then [s[0]] + KeepWord(s[1..]) else KeepWord(s[1..])
  }

  /** `slugify(s)`: the output is a slug (only `[a-z0-9_-]`, so no upper case and
      no whitespace) and no longer than the input. */
  function Slugify(s: string): (r: string)
    ensures IsSlug(r)
    ensures NoWhitespace(r)
    ensures |r| <= |s|
  {
    var lowered := ToLower(Trim(s));
    KeptCharsAreSlugChars(lowered);
    KeepWord(CollapseWs(lowered))
  }

  /** Without upper-case letters, collapsing and filtering leave only slug characters. */
  lemma KeptCharsAreSlugChars(lowered: string)
    requires forall k :: 0 <= k < |lowered| ==> !IsUpper(lowered[k])
    ensures IsSlug(KeepWord(CollapseWs(lowered)))
  {
    var c := CollapseWs(lowered);
    var r := KeepWord(c);
    CollapseWsKeepsChars(lowered);
    forall i | 0 <= i < |r| ensures IsSlugChar(r[i]) {
      var j :| 0 <= j < |c| && c[j] == r[i];
      if c[j] != '-' {
        var k :| 0 <= k < |lowered| && lowered[k] == c[j];
      }
    }
  }

  lemma {:induction false} CollapseWsIdentity(s: string)
    requires NoWhitespace(s)
    ensures CollapseWs(s) == s
  {
    if |s| > 0 {
      CollapseWsIdentity(s[1..]);
      assert [s[0]] + s[1..] == s;
    }
  }

  lemma {:induction false} KeepWordIdentity(s: string)
    requires IsSlug(s)
    ensures KeepWord(s) == s
  {
    if |s| > 0 {
      KeepWordIdentity(s[1..]);
      assert [s[0]] + s[1..] == s;
    }
  }

  /** `KeepWord` works character by character: it keeps a character exactly
      when it is a word character or '-', and keeps the order. */
  lemma {:induction false} KeepWordConcat(a: string, b: string, c: char)
    ensures KeepWord(a + b) == KeepWord(a) + KeepWord(b)
    ensures KeepWord([c]) == if IsWordChar(c) || c == '-' then [c] else []
    decreases |a|
  {
    assert [c][1..] == [];
    if |a| == 0 {
      assert a + b == b;
    } else {
      assert (a + b)[0] == a[0];
      assert (a + b)[1..] == a[1..] + b;
      KeepWordConcat(a[1..], b, c);
    }
  }

  /** One step of `CollapseWs`: a leading whitespace run becomes '-', any other
      leading character is kept. */
  lemma CollapseWsStep(s: string)
    requires |s| > 0
    ensures CollapseWs(s) == if IsWhitespace(s[0]) then "-" + CollapseWs(TrimStart(s[1..])) else [s[0]] + CollapseWs(s[1..])
  {
  }

  /** A whitespace run on its own becomes one '-', and any other character is kept. */
  lemma CollapseWsPieces(w: string, c: char)
    requires |w| > 0 && NoneButWhitespace(w)
    ensures CollapseWs(w) == "-"
    ensures CollapseWs([c]) == if IsWhitespace(c) then "-" else [c]
  {
    CollapseWsStep(w);
    TrimStartAppendSpace(w[1..], "");
    assert w[1..] + "" == w[1..];
    assert TrimStart(w[1..]) == "";
    CollapseWsStep([c]);
    assert [c][1..] == [];
    if IsWhitespace(c) {
      assert TrimStart([c][1..]) == "";
    }
  }

  /** A whitespace-only `a` followed by text that does not start with
      whitespace: the run becomes '-' in front of the text's own result. */
  lemma CollapseWsAfterRun(a: string, b: string)
    requires |a| > 0 && NoneButWhitespace(a)
    requires |b| == 0 || !IsWhitespace(b[0])
    ensures CollapseWs(a + b) == CollapseWs(a) + CollapseWs(b)
  {
    CollapseWsPieces(a, ' ');
    Sequences.TailOfAppend(a, b);
    CollapseWsStep(a + b);
    TrimStartAppendSpace(a[1..], b);
    assert TrimStart(b) == b;
  }

  /** A leading non-whitespace character of `a` is kept in front of the rest
      of `a` joined with `b` as the recursive case says. */
  lemma CollapseWsWordThenText(a: string, b: string)
    requires |a| > 0 && !IsWhitespace(a[0])
    requires CollapseWs(a[1..] + b) == CollapseWs(a[1..]) + CollapseWs(b)
    ensures CollapseWs(a + b) == CollapseWs(a) + CollapseWs(b)
  {
    Sequences.TailOfAppend(a, b);
    CollapseWsStep(a + b);
    CollapseWsStep(a);
    Sequences.AppendAssoc([a[0]], CollapseWs(a[1..]), CollapseWs(b));
  }

  /** A leading whitespace run followed by more text in `a`: the run becomes
      '-' and the rest of `a` joins `b` as the recursive case says. */
  lemma CollapseWsRunThenText(a: string, b: string)
    requires |a| > 0 && IsWhitespace(a[0]) && !NoneButWhitespace(a[1..])
    requires CollapseWs(TrimStart(a[1..]) + b) == CollapseWs(TrimStart(a[1..])) + CollapseWs(b)
    ensures CollapseWs(a + b) == CollapseWs(a) + CollapseWs(b)
  {
    Sequences.TailOfAppend(a, b);
    TrimStartAppendWord(a[1..], b);
    CollapseWsStep(a + b);
    CollapseWsStep(a);
    Sequences.AppendAssoc("-", CollapseWs(TrimStart(a[1..])), CollapseWs(b));
  }

  /** `CollapseWs` works run by run: cutting between a whitespace character and
      another character (or at either end) cuts the result at the same place. */
  lemma {:induction false} CollapseWsAppend(a: string, b: string)
    requires |a| == 0 || |b| == 0 || !IsWhitespace(a[|a| - 1]) || !IsWhitespace(b[0])
    ensures CollapseWs(a + b) == CollapseWs(a) + CollapseWs(b)
    decreases |a|
  {
    if |a| == 0 {
      assert a + b == b;
    } else if !IsWhitespace(a[0]) {
      CollapseWsAppend(a[1..], b);
      CollapseWsWordThenText(a, b);
    } else if NoneButWhitespace(a[1..]) {
      CollapseWsAfterRun(a, b);
    } else {
      var t := TrimStart(a[1..]);
      assert t[|t| - 1] == a[|a| - 1];
      CollapseWsAppend(t, b);
      CollapseWsRunThenText(a, b);
    }
  }

  /** Slugifying a slug gives it back, so `slugify` is idempotent. */
  lemma SlugIsFixedPoint(t: string)
    requires IsSlug(t)
    ensures Slugify(t) == t
  {
    TrimOfTrimmed(t);
    assert ToLower(t) == t;
    CollapseWsIdentity(t);
    KeepWordIdentity(t);
  }

  lemma SlugifyIdempotent(s: string)
    ensures Slugify(Slugify(s)) == Slugify(s)
  {
    SlugIsFixedPoint(Slugify(s));
  }

  /** Nothing survives the filter when no character is a word character or `-`. */
  lemma {:induction false} KeepWordEmpty(s: string)
    requires forall i :: 0 <= i < |s| ==> !IsWordChar(s[i]) && s[i] != '-'
    ensures KeepWord(s) == ""
  {
    if |s| > 0 {
      KeepWordEmpty(s[1..]);
    }
  }

  /** Input holding no word character and no '-', whose whitespace sits only at
      its two ends, slugifies to "": all-whitespace input and all-punctuation
      input are the typical cases. Lower-casing creates no word character from a
      non-word one, and after trimming there is no whitespace run left to become
      '-'. */
  lemma EmptySlug(s: string)
    requires forall i :: 0 <= i < |s| ==> !IsWordChar(s[i]) && s[i] != '-'
    requires NoWhitespace(Trim(s))
    ensures Slugify(s) == ""
  {
    var t := Trim(s);
    NoWordCharsSurviveTrim(s);
    NoWordCharsLower(t);
    CollapseWsIdentity(t);
    KeepWordEmpty(t);
  }

  /** Trimming only cuts characters away. */
  lemma NoWordCharsSurviveTrim(s: string)
    requires forall i :: 0 <= i < |s| ==> !IsWordChar(s[i]) && s[i] != '-'
    ensures forall k :: 0 <= k < |Trim(s)| ==> !IsWordChar(Trim(s)[k]) && Trim(s)[k] != '-'
  {
    var t := Trim(s);
    TrimCutsWhitespace(s);
    var i0 :| TrimmedFrom(s, t, i0);
    forall k | 0 <= k < |t| ensures !IsWordChar(t[k]) && t[k] != '-' {
      assert t[k] == s[i0 + k];
    }
  }

  /** Lower-casing leaves a string without letters unchanged. */
  lemma NoWordCharsLower(t: string)
    requires forall i :: 0 <= i < |t| ==> !IsWordChar(t[i])
    ensures ToLower(t) == t
  {
    var lowered := ToLower(t);
    forall k | 0 <= k < |t| ensures lowered[k] == t[k] {
      assert !IsUpper(t[k]);
    }
  }

  /** Whitespace-only input slugifies to "". */
  lemma WhitespaceOnlySlug(s: string)
    requires NoneButWhitespace(s)
    ensures Slugify(s) == ""
  {
    var t := Trim(s);
    TrimCutsWhitespace(s);
    var i0 :| TrimmedFrom(s, t, i0);
    if |t| > 0 {
      assert false;
    }
  }

  /** Punctuation with whitespace between it is not emptied: the inner whitespace
      run survives as '-'. */
  lemma PunctuationAroundSpace()
    ensures Slugify("! !") == "-"
  {
    var s := "! !";
    TrimKeepsPunctuation();
    LowerKeepsPunctuation();
    CollapseInnerSpace();
    KeepDash();
    assert Slugify(s) == KeepWord(CollapseWs(ToLower(Trim(s))));
  }

  lemma LowerKeepsPunctuation()
    ensures ToLower("! !") == "! !"
  {
    var r := ToLower("! !");
    assert r[0] == '!' && r[1] == ' ' && r[2] == '!';
  }

  lemma TrimKeepsPunctuation()
    ensures Trim("! !") == "! !"
  {
    assert TrimStart("! !") == "! !";
    assert TrimEnd("! !") == "! !";
  }

  lemma CollapseInnerSpace()
    ensures CollapseWs("! !") == "!-!"
  {
    assert "! !"[1..] == " !";
    assert " !"[1..] == "!";
    assert TrimStart("!") == "!";
    assert CollapseWs("!") == "!";
    assert CollapseWs(" !") == "-!";
  }

  lemma KeepDash()
    ensures KeepWord("!-!") == "-"
  {
    assert "!-!"[1..] == "-!";
    assert "-!"[1..] == "!";
    assert KeepWord("!") == "";
  }
}
