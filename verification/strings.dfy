/**
 * The few Python string operations the script relies on, written out over
 * `seq<char>`: `str.split()` and `str.strip()` with no argument, `str.replace`,
 * `os.path.splitext` on a base name, and the decimal formatting of an `int`
 * (`f"{n}"` and `f"{n:02}"`).
 */
module Strings {
  import opened Wrappers

  /** Python's `str.isspace()` for one character: what `split()` and `strip()` treat as whitespace. */
  predicate IsSpace(c: char) {
    c == ' ' || ('\t' <= c <= '\r') || ('\U{1C}' <= c <= '\U{1F}')
    || c == '\U{85}' || c == '\U{A0}' || c == '\U{1680}'
    || ('\U{2000}' <= c <= '\U{200A}') || c == '\U{2028}' || c == '\U{2029}'
    || c == '\U{202F}' || c == '\U{205F}' || c == '\U{3000}'
  }

  /** A single whitespace-free, non-empty token, as a speech recognizer's word is. */
  predicate IsToken(w: string) {
    |w| > 0 && forall i :: 0 <= i < |w| ==> !IsSpace(w[i])
  }

  predicate AllTokens(ws: seq<string>) {
    forall i :: 0 <= i < |ws| ==> IsToken(ws[i])
  }

  /** Length of the run of non-whitespace characters at the head of `s`. */
  function RunLength(s: string): (n: nat)
    ensures n <= |s|
    ensures forall i :: 0 <= i < n ==> !IsSpace(s[i])
    ensures n < |s| ==> IsSpace(s[n])
  {
    if s == [] || IsSpace(s[0]) then 0 else 1 + RunLength(s[1..])
  }

  /** `s.split()`: the maximal runs of non-whitespace characters, in order. */
  function Split(s: string): (r: seq<string>)
    ensures AllTokens(r)
    decreases |s|
  {
    if s == [] then []
    else if IsSpace(s[0]) then Split(s[1..])
    else
      var n := RunLength(s);
      [s[..n]] + Split(s[n..])
  }

  /** `s.lstrip()`. */
  function LStrip(s: string): (r: string)
    ensures |r| <= |s| && r == s[|s| - |r|..]
    ensures forall i :: 0 <= i < |s| - |r| ==> IsSpace(s[i])
    ensures r == [] || !IsSpace(r[0])
  {
    if s != [] && IsSpace(s[0]) then
      var r := LStrip(s[1..]);
      assert s[1..][|s| - 1 - |r|..] == s[|s| - |r|..];
      r
    else s
  }

  /** `s.rstrip()`. */
  function RStrip(s: string): (r: string)
    ensures |r| <= |s| && r == s[..|r|]
    ensures forall i :: |r| <= i < |s| ==> IsSpace(s[i])
    ensures r == [] || !IsSpace(r[|r| - 1])
  {
    if s != [] && IsSpace(s[|s| - 1]) then RStrip(s[..|s| - 1]) else s
  }

  /** `s.strip()`. */
  function Strip(s: string): string {
    LStrip(RStrip(s))
  }

  /** Each word preceded by one space: the string `buffer += f" {word}"` builds. */
  function Spaced(ws: seq<string>): string {
    if ws == [] then "" else " " + ws[0] + Spaced(ws[1..])
  }

  /** Appending a word to the list is the string update `buffer += f" {word}"`. */
  lemma {:induction false} SpacedSnoc(ws: seq<string>, w: string)
    ensures Spaced(ws + [w]) == Spaced(ws) + " " + w
  {
    if ws == [] {
      assert Spaced([w]) == " " + w + Spaced([]);
    } else {
      assert (ws + [w])[1..] == ws[1..] + [w];
      SpacedSnoc(ws[1..], w);
    }
  }

  /** The words separated by single spaces. */
  function Join(ws: seq<string>): string {
    if ws == [] then "" else ws[0] + Spaced(ws[1..])
  }

  lemma {:induction false} RunLengthOfToken(w: string, rest: string)
    requires forall i :: 0 <= i < |w| ==> !IsSpace(w[i])
    requires rest == [] || IsSpace(rest[0])
    ensures RunLength(w + rest) == |w|
  {
    if w != [] {
      assert (w + rest)[1..] == w[1..] + rest;
      RunLengthOfToken(w[1..], rest);
    }
  }

  lemma {:induction false} SplitAfterToken(w: string, rest: string)
    requires IsToken(w)
    requires rest == [] || IsSpace(rest[0])
    ensures Split(w + rest) == [w] + Split(rest)
  {
    RunLengthOfToken(w, rest);
    var s := w + rest;
    assert s[..|w|] == w;
    assert s[|w|..] == rest;
  }

  /** A space ends the run of non-whitespace characters. */
  lemma {:induction false} RunLengthBeforeSpace(a: string, b: string)
    ensures RunLength(a + " " + b) == RunLength(a)
  {
    if a != [] && !IsSpace(a[0]) {
      assert (a + " " + b)[1..] == a[1..] + " " + b;
      RunLengthBeforeSpace(a[1..], b);
    }
  }

  /** Splitting at a space splits each side on its own. */
  lemma {:induction false} SplitAround(a: string, b: string)
    ensures Split(a + " " + b) == Split(a) + Split(b)
    decreases |a|
  {
    var s := a + " " + b;
    if a == [] {
      assert s[1..] == b;
    } else if IsSpace(a[0]) {
      calc {
        Split(s);
        { assert s[0] == a[0]; }
        Split(s[1..]);
        { assert s[1..] == a[1..] + " " + b; }
        Split(a[1..] + " " + b);
        { SplitAround(a[1..], b); }
        Split(a[1..]) + Split(b);
      }
    } else {
      var n := RunLength(a);
      calc {
        Split(s);
        { assert s[0] == a[0]; RunLengthBeforeSpace(a, b); }
        [s[..n]] + Split(s[n..]);
        { assert s[..n] == a[..n]; assert s[n..] == a[n..] + " " + b; }
        [a[..n]] + Split(a[n..] + " " + b);
        { SplitAround(a[n..], b); }
        [a[..n]] + (Split(a[n..]) + Split(b));
        ([a[..n]] + Split(a[n..])) + Split(b);
      }
    }
  }

  /** The tokens of the buffer are the tokens of its words, in order. */
  lemma SplitSpacedCons(ws: seq<string>)
    requires ws != []
    ensures Split(Spaced(ws)) == Split(ws[0]) + Split(Spaced(ws[1..]))
  {
    var w, rest := ws[0], Spaced(ws[1..]);
    var s := " " + (w + rest);
    assert Spaced(ws) == s;
    assert s[1..] == w + rest;
    assert Split(s) == Split(w + rest);
    if ws[1..] == [] {
      assert w + rest == w;
    } else {
      var b := rest[1..];
      assert rest == " " + b;
      assert Split(rest) == Split(b);
      assert w + rest == w + " " + b;
      SplitAround(w, b);
    }
  }

  /** Splitting the space-prefixed words gives the words back. */
  lemma {:induction false} SplitSpaced(ws: seq<string>)
    requires AllTokens(ws)
    ensures Split(Spaced(ws)) == ws
  {
    if ws != [] {
      var tail := Spaced(ws[1..]);
      SplitSpaced(ws[1..]);
      assert Spaced(ws) == " " + (ws[0] + tail);
      assert (" " + (ws[0] + tail))[1..] == ws[0] + tail;
      SplitAfterToken(ws[0], tail);
    }
  }

  lemma {:induction false} SpacedEnd(ws: seq<string>)
    requires AllTokens(ws) && ws != []
    ensures |Spaced(ws)| > 1 && !IsSpace(Spaced(ws)[|Spaced(ws)| - 1])
  {
    var w := ws[0];
    if ws[1..] == [] {
      assert Spaced(ws) == " " + w;
    } else {
      SpacedEnd(ws[1..]);
      assert Spaced(ws) == " " + w + Spaced(ws[1..]);
    }
  }

  /** The space-prefixed words are one space followed by the joined words. */
  lemma SpacedIsJoin(ws: seq<string>)
    requires ws != []
    ensures Spaced(ws) == " " + Join(ws)
  {
  }

  /** For token words, the stripped buffer is the words joined by single spaces. */
  lemma {:induction false} StripSpaced(ws: seq<string>)
    requires AllTokens(ws)
    ensures Strip(Spaced(ws)) == Join(ws)
  {
    if ws != [] {
      var s := Spaced(ws);
      var j := Join(ws);
      calc {
        Strip(s);
        LStrip(RStrip(s));
        { SpacedEnd(ws); }
        LStrip(s);
        { SpacedIsJoin(ws); assert s[1..] == j; }
        LStrip(j);
        { assert j[0] == ws[0][0]; }
        j;
      }
    }
  }

  /** For token words, the stripped buffer is the words joined by single spaces, and splitting it gives the words back. */
  lemma TextOfTokens(ws: seq<string>)
    requires AllTokens(ws)
    ensures Strip(Spaced(ws)) == Join(ws)
    ensures Split(Strip(Spaced(ws))) == ws
    ensures Strip(Spaced(ws)) == "" <==> ws == []
  {
    StripSpaced(ws);
    SplitSpaced(ws);
    if ws != [] {
      SpacedIsJoin(ws);
      var s := Spaced(ws);
      assert s[1..] == Join(ws);
      assert Split(s) == Split(s[1..]);
    }
  }

  /** Only whitespace is lost by stripping: the result is empty exactly when `s` is all whitespace. */
  lemma StripEmpty(s: string)
    ensures Strip(s) == "" <==> forall i :: 0 <= i < |s| ==> IsSpace(s[i])
  {
    var r := RStrip(s);
    if Strip(s) == "" {
      forall i | 0 <= i < |s| ensures IsSpace(s[i]) {
        if i < |r| { assert IsSpace(r[i]); }
      }
    }
    if forall i :: 0 <= i < |s| ==> IsSpace(s[i]) {
      assert r == [];
    }
  }

  // ---- decimal integers ----

  predicate IsDigit(c: char) {
    '0' <= c <= '9'
  }

  function DigitChar(d: nat): (c: char)
    requires d < 10
    ensures IsDigit(c)
  {
    "0123456789"[d]
  }

  function DigitValue(c: char): (d: nat)
    requires IsDigit(c)
    ensures d < 10
  {
    (c as int) - ('0' as int)
  }

  /** `f"{n}"` for a non-negative integer: its decimal digits without leading zeros. */
  function NatToString(n: nat): (r: string)
    ensures |r| > 0 && forall i :: 0 <= i < |r| ==> IsDigit(r[i])
    ensures r[0] == '0' <==> n == 0
  {
    if n < 10 then [DigitChar(n)]
    else
      var h := NatToString(n / 10);
      assert (h + [DigitChar(n % 10)])[0] == h[0];
      h + [DigitChar(n % 10)]
  }

  /** The value of a string of decimal digits (the empty string reads as 0). */
  function ParseNat(s: string): nat
    requires forall i :: 0 <= i < |s| ==> IsDigit(s[i])
  {
    if s == [] then 0 else 10 * ParseNat(s[..|s| - 1]) + DigitValue(s[|s| - 1])
  }

  lemma {:induction false} ParseNatToString(n: nat)
    ensures ParseNat(NatToString(n)) == n
  {
    var s := NatToString(n);
    if n < 10 {
      assert s[..|s| - 1] == [];
      assert DigitValue(DigitChar(n)) == n;
    } else {
      assert s[..|s| - 1] == NatToString(n / 10);
      ParseNatToString(n / 10);
      assert DigitValue(DigitChar(n % 10)) == n % 10;
    }
  }

  /** Different numbers print differently. */
  lemma NatToStringInjective(a: nat, b: nat)
    requires NatToString(a) == NatToString(b)
    ensures a == b
  {
    ParseNatToString(a);
    ParseNatToString(b);
  }

  /** `f"{n:02}"`: the decimal form of `n`, zero-padded after the sign to at least two characters. */
  function Pad2(n: int): (r: string)
    ensures |r| >= 2
    ensures 0 <= n < 100 ==> |r| == 2 && IsDigit(r[0]) && IsDigit(r[1]) && ParseNat(r) == n
  {
    if n < 0 then "-" + NatToString(-n)
    else if n < 10 then
      ParseNatToString(n);
      "0" + NatToString(n)
    else
      ParseNatToString(n);
      NatToString(n)
  }

  // ---- replace and splitext ----

  predicate Lacks(s: string, c: char) {
    forall i :: 0 <= i < |s| ==> s[i] != c
  }

  /** `s.replace(pat, rep)`: every non-overlapping occurrence of `pat`, left to right, replaced by `rep`. */
  function ReplaceAll(s: string, pat: string, rep: string): string
    requires |pat| > 0
    decreases |s|
  {
    if |s| < |pat| then s
    else if s[..|pat|] == pat then rep + ReplaceAll(s[|pat|..], pat, rep)
    else [s[0]] + ReplaceAll(s[1..], pat, rep)
  }

  /** A pattern that begins with a character absent from `base` occurs in `base + pat` only at the end. */
  lemma {:induction false} ReplaceSuffix(base: string, pat: string, rep: string)
    requires |pat| > 0 && Lacks(base, pat[0])
    ensures ReplaceAll(base + pat, pat, rep) == base + rep
  {
    var s := base + pat;
    if base == [] {
      assert s[..|pat|] == pat;
      assert s[|pat|..] == [];
    } else {
      calc {
        ReplaceAll(s, pat, rep);
        { assert s[..|pat|][0] != pat[0]; }
        [s[0]] + ReplaceAll(s[1..], pat, rep);
        { assert s[1..] == base[1..] + pat; }
        [base[0]] + ReplaceAll(base[1..] + pat, pat, rep);
        { ReplaceSuffix(base[1..], pat, rep); }
        [base[0]] + (base[1..] + rep);
        base + rep;
      }
    }
  }

  /** Index of the last occurrence of `c` in `s`. */
  function LastIndexOf(s: string, c: char): (r: Option<nat>)
    ensures r.Some? ==> r.value < |s| && s[r.value] == c && Lacks(s[r.value + 1..], c)
    ensures r.None? ==> Lacks(s, c)
  {
    if s == [] then None
    else if s[|s| - 1] == c then Some(|s| - 1)
    else
      var r := LastIndexOf(s[..|s| - 1], c);
      assert r.Some? ==> s[r.value + 1..] == s[..|s| - 1][r.value + 1..] + [s[|s| - 1]];
      r
  }

  /** The root that `os.path.splitext` returns for a base name (one without a directory part):
      everything before the last dot, unless only dots precede that dot. */
  function Stem(name: string): string {
    match LastIndexOf(name, '.')
    case None => name
    case Some(d) => if exists i :: 0 <= i < d && name[i] != '.' then name[..d] else name
  }

  /** The stem of `base + ext`, for a non-empty dot-free `base` and an extension that starts with its only dot. */
  lemma StemOfExtension(base: string, ext: string)
    requires |base| > 0 && Lacks(base, '.')
    requires |ext| > 0 && ext[0] == '.' && Lacks(ext[1..], '.')
    ensures Stem(base + ext) == base
  {
    var s := base + ext;
    var r := LastIndexOf(s, '.');
    assert s[|base|] == '.';
    if r.None? {
      assert false;
    } else {
      var d := r.value;
      assert d == |base|;
      assert s[0] == base[0] != '.';
      assert s[..d] == base;
    }
  }
}
