/** The string helpers the catalogue code applies to names, brands and categories:
    Python's `str.strip()`, `str.lower()` and `str * n`, and the key normalisation
    `(x or "").strip().lower()` used by both retrieval and re-ranking. */
module Text {
  import opened Basics

  /** The characters Python's `str.isspace()` accepts, i.e. what `str.strip()` removes. */
  predicate IsSpace(c: char) {
    || c == ' '
    || ('\t' <= c <= '\r')
    || ('\U{1C}' <= c <= '\U{1F}')
    || c == '\U{85}' || c == '\U{A0}' || c == '\U{1680}'
    || ('\U{2000}' <= c <= '\U{200A}')
    || c == '\U{2028}' || c == '\U{2029}' || c == '\U{202F}' || c == '\U{205F}' || c == '\U{3000}'
  }

  predicate AllSpace(s: string) {
    forall i :: 0 <= i < |s| ==> IsSpace(s[i])
  }

  /** No whitespace at either end. */
  predicate Stripped(s: string) {
    |s| > 0 ==> !IsSpace(s[0]) && !IsSpace(s[|s| - 1])
  }

  function StripStart(s: string): (r: string)
    ensures |r| <= |s|
    ensures |r| > 0 ==> !IsSpace(r[0])
  {
    if |s| > 0 && IsSpace(s[0]) then StripStart(s[1..]) else s
  }

  function StripEnd(s: string): (r: string)
    ensures |r| <= |s| && r <= s
    ensures |r| > 0 ==> !IsSpace(r[|r| - 1])
  {
    if |s| > 0 && IsSpace(s[|s| - 1]) then StripEnd(s[..|s| - 1]) else s
  }

  /** `StripStart` removes a run of whitespace from the front. */
  lemma {:induction false} StripStartIsSuffix(s: string)
    ensures var r := StripStart(s); r == s[|s| - |r|..] && AllSpace(s[..|s| - |r|])
  {
    if |s| > 0 && IsSpace(s[0]) {
      StripStartIsSuffix(s[1..]);
    }
  }

  /** `StripEnd` removes a run of whitespace from the back. */
  lemma {:induction false} StripEndIsPrefix(s: string)
    ensures var r := StripEnd(s); AllSpace(s[|r|..])
  {
    if |s| > 0 && IsSpace(s[|s| - 1]) {
      StripEndIsPrefix(s[..|s| - 1]);
    }
  }

  /** Python's `s.strip()`: `s` with its leading and trailing whitespace removed. */
  function Strip(s: string): (r: string)
    ensures Stripped(r) && |r| <= |s|
  {
    StripEnd(StripStart(s))
  }

  /** What `strip()` removes is whitespace, and what it keeps is one contiguous piece of
      the input. */
  lemma StripRemovesOnlySpace(s: string)
    ensures var i, r := |s| - |StripStart(s)|, Strip(s);
            && i + |r| <= |s| && s[i..i + |r|] == r
            && AllSpace(s[..i]) && AllSpace(s[i + |r|..])
  {
    var t := StripStart(s);
    var r := StripEnd(t);
    StripStartIsSuffix(s);
    StripEndIsPrefix(t);
    SliceOfSuffix(s, |s| - |t|, t, r);
  }

  lemma SliceOfSuffix(s: string, i: nat, t: string, r: string)
    requires i <= |s| && t == s[i..] && r <= t
    ensures s[i..i + |r|] == r && s[i + |r|..] == t[|r|..]
  {
    assert r == t[..|r|];
  }

  lemma {:induction false} StripStartPadding(ws: string, t: string)
    requires AllSpace(ws)
    ensures StripStart(ws + t) == StripStart(t)
  {
    if ws != [] {
      assert (ws + t)[1..] == ws[1..] + t;
      StripStartPadding(ws[1..], t);
    } else {
      assert ws + t == t;
    }
  }

  lemma {:induction false} StripEndPadding(t: string, ws: string)
    requires AllSpace(ws)
    ensures StripEnd(t + ws) == StripEnd(t)
  {
    if ws != [] {
      assert (t + ws)[..|t + ws| - 1] == t + ws[..|ws| - 1];
      StripEndPadding(t, ws[..|ws| - 1]);
    } else {
      assert t + ws == t;
    }
  }

  /** Once a non-space character is present, text appended at the end survives
      `StripStart` untouched. */
  lemma {:induction false} StripStartAppend(t: string, u: string)
    requires !AllSpace(t)
    ensures StripStart(t + u) == StripStart(t) + u
  {
    assert t != [];
    if IsSpace(t[0]) {
      assert (t + u)[1..] == t[1..] + u;
      assert !AllSpace(t[1..]) by {
        var i :| 0 <= i < |t| && !IsSpace(t[i]);
        assert t[1..][i - 1] == t[i];
      }
      StripStartAppend(t[1..], u);
    }
  }

  lemma {:induction false} AllSpaceStrips(s: string)
    requires AllSpace(s)
    ensures StripEnd(s) == [] && StripStart(s) == []
  {
    if s != [] {
      AllSpaceStrips(s[..|s| - 1]);
      AllSpaceStrips(s[1..]);
    }
  }

  /** Whitespace around a string does not change what `strip()` returns. */
  lemma StripPadding(ws1: string, t: string, ws2: string)
    requires AllSpace(ws1) && AllSpace(ws2)
    ensures Strip(ws1 + t + ws2) == Strip(t)
  {
    assert ws1 + t + ws2 == ws1 + (t + ws2);
    StripStartPadding(ws1, t + ws2);
    if AllSpace(t) {
      StripPaddingBlank(t, ws2);
    } else {
      StripStartAppend(t, ws2);
      StripEndPadding(StripStart(t), ws2);
    }
  }

  lemma StripPaddingBlank(t: string, ws2: string)
    requires AllSpace(t) && AllSpace(ws2)
    ensures StripEnd(StripStart(t + ws2)) == StripEnd(StripStart(t)) == []
  {
    assert AllSpace(t + ws2);
    AllSpaceStrips(t + ws2);
    AllSpaceStrips(t);
  }

  /** Text with no whitespace at its ends stays so when followed by text that does not
      end in whitespace. */
  lemma StrippedAppend(a: string, b: string)
    requires Stripped(a) && a != []
    requires b == [] || !IsSpace(b[|b| - 1])
    ensures Stripped(a + b)
  {
    assert (a + b)[0] == a[0];
    if b == [] {
      assert a + b == a;
    } else {
      assert (a + b)[|a + b| - 1] == b[|b| - 1];
    }
  }

  /** Stripping a stripped string changes nothing. */
  lemma StrippedIsFixed(s: string)
    requires Stripped(s)
    ensures Strip(s) == s
  {
  }

  /** `str.lower()` on one character (ASCII letters only). */
  function LowerChar(c: char): (r: char)
    ensures IsSpace(r) <==> IsSpace(c)
    ensures !('A' <= r <= 'Z')
  {
    if 'A' <= c <= 'Z' then (c as int - 'A' as int + 'a' as int) as char else c
  }

  /** Python's `s.lower()`, restricted to ASCII letters. */
  function Lower(s: string): (r: string)
    ensures |r| == |s|
    ensures forall i :: 0 <= i < |s| ==> r[i] == LowerChar(s[i])
  {
    seq(|s|, i requires 0 <= i < |s| => LowerChar(s[i]))
  }

  /** `c` and `d` are the same character, or the upper- and lower-case forms of one ASCII
      letter. */
  predicate SameIgnoringCase(c: char, d: char) {
    || c == d
    || ('A' <= c <= 'Z' && d as int == c as int + 32)
    || ('A' <= d <= 'Z' && c as int == d as int + 32)
  }

  /** `a` and `b` spell the same text up to the case of ASCII letters. */
  predicate EqualIgnoringCase(a: string, b: string) {
    |a| == |b| && forall i :: 0 <= i < |a| ==> SameIgnoringCase(a[i], b[i])
  }

  lemma LowerCharFolds(c: char, d: char)
    ensures LowerChar(c) == LowerChar(d) <==> SameIgnoringCase(c, d)
  {
  }

  /** Two texts lower to the same text exactly when they differ only in the case of
      ASCII letters. */
  lemma LowerFoldsCase(a: string, b: string)
    ensures Lower(a) == Lower(b) <==> EqualIgnoringCase(a, b)
  {
    if Lower(a) == Lower(b) {
      forall i | 0 <= i < |a|
        ensures SameIgnoringCase(a[i], b[i])
      {
        assert Lower(a)[i] == Lower(b)[i];
        LowerCharFolds(a[i], b[i]);
      }
    }
    if EqualIgnoringCase(a, b) {
      forall i | 0 <= i < |a|
        ensures Lower(a)[i] == Lower(b)[i]
      {
        LowerCharFolds(a[i], b[i]);
      }
    }
  }

  /** `lower()` leaves no upper-case ASCII letter, changes no other character, keeps
      each character's case-insensitive identity, and is idempotent. */
  lemma LowerProperties(s: string)
    ensures forall i :: 0 <= i < |s| ==> !('A' <= Lower(s)[i] <= 'Z')
    ensures forall i :: 0 <= i < |s| && !('A' <= s[i] <= 'Z') ==> Lower(s)[i] == s[i]
    ensures EqualIgnoringCase(s, Lower(s))
    ensures Lower(Lower(s)) == Lower(s)
    ensures Lower(s) == s <==> forall i :: 0 <= i < |s| ==> !('A' <= s[i] <= 'Z')
  {
    assert forall i :: 0 <= i < |s| ==> Lower(Lower(s))[i] == Lower(s)[i];
  }

  /** Lowering and stripping commute, because lowering maps whitespace to whitespace and
      nothing else to whitespace. */
  lemma {:induction false} LowerStripStart(s: string)
    ensures StripStart(Lower(s)) == Lower(StripStart(s))
  {
    if |s| > 0 && IsSpace(s[0]) {
      assert Lower(s)[1..] == Lower(s[1..]);
      LowerStripStart(s[1..]);
    }
  }

  lemma {:induction false} LowerStripEnd(s: string)
    ensures StripEnd(Lower(s)) == Lower(StripEnd(s))
  {
    if |s| > 0 && IsSpace(s[|s| - 1]) {
      assert Lower(s)[..|s| - 1] == Lower(s[..|s| - 1]);
      LowerStripEnd(s[..|s| - 1]);
    }
  }

  lemma LowerStrip(s: string)
    ensures Strip(Lower(s)) == Lower(Strip(s))
  {
    LowerStripStart(s);
    LowerStripEnd(StripStart(s));
  }

  lemma LowerKeepsStripped(s: string)
    requires Stripped(s)
    ensures Stripped(Lower(s))
  {
    if |s| > 0 {
      assert Lower(s)[0] == LowerChar(s[0]);
      assert Lower(s)[|s| - 1] == LowerChar(s[|s| - 1]);
    }
  }

  /** The lookup key of a brand or category: `(x or "").strip().lower()`. */
  function Normalize(x: Option<string>): (r: string)
    ensures Stripped(r)
    ensures forall i :: 0 <= i < |r| ==> !('A' <= r[i] <= 'Z')
  {
    var t := Strip(x.GetOr(""));
    LowerKeepsStripped(t);
    Lower(t)
  }

  /** Normalising is idempotent, ignores surrounding whitespace, and maps a missing value
      and the empty string alike. */
  lemma NormalizeProperties(x: Option<string>, ws1: string, t: string, ws2: string)
    requires AllSpace(ws1) && AllSpace(ws2)
    ensures Normalize(Some(Normalize(x))) == Normalize(x)
    ensures Normalize(Some(ws1 + t + ws2)) == Normalize(Some(t))
    ensures Normalize(None) == Normalize(Some(""))
  {
    var n := Normalize(x);
    StrippedIsFixed(n);
    assert Lower(n) == n;
    StripPadding(ws1, t, ws2);
    StrippedIsFixed("");
  }

  /** The key ignores the case of the text it is made from. */
  lemma NormalizeIgnoresCase(t: string)
    ensures Normalize(Some(Lower(t))) == Normalize(Some(t))
  {
    LowerStrip(t);
    LowerProperties(Strip(t));
  }

  /** Python's `s * n` for `n >= 0`. */
  function Repeat(s: string, n: nat): (r: string)
    ensures |r| == n * |s|
  {
    if n == 0 then "" else Repeat(s, n - 1) + s
  }

  /** `s * (a + b) == s * a + s * b` */
  lemma {:induction false} RepeatAdd(s: string, a: nat, b: nat)
    ensures Repeat(s, a + b) == Repeat(s, a) + Repeat(s, b)
  {
    if b > 0 {
      RepeatAdd(s, a, b - 1);
      assert Repeat(s, a) + Repeat(s, b - 1) + s == Repeat(s, a) + (Repeat(s, b - 1) + s);
    } else {
      assert Repeat(s, a) + "" == Repeat(s, a);
    }
  }

  /** `s * n` is `n` consecutive copies of `s`: copy `i` occupies positions
      `i * |s|` to `i * |s| + |s|`. */
  lemma {:induction false} RepeatCopies(s: string, n: nat, i: nat)
    requires i < n
    ensures Repeat(s, n)[i * |s|..i * |s| + |s|] == s
  {
    var front := Repeat(s, n - 1);
    assert Repeat(s, n) == front + s;
    if i < n - 1 {
      RepeatCopies(s, n - 1, i);
      CopyFits(i, n - 1, |s|);
      assert (front + s)[i * |s|..i * |s| + |s|] == front[i * |s|..i * |s| + |s|];
    } else {
      assert |front| == i * |s|;
    }
  }

  lemma {:induction false} CopyFits(i: nat, m: nat, k: nat)
    requires i < m
    ensures i * k + k <= m * k
  {
    if m == i + 1 {
      assert m * k == i * k + k;
    } else {
      CopyFits(i, m - 1, k);
      assert m * k == (m - 1) * k + k;
    }
  }

  /** A one-character pad repeated is that character throughout. */
  lemma {:induction false} RepeatChar(c: char, n: nat)
    ensures forall j :: 0 <= j < |Repeat([c], n)| ==> Repeat([c], n)[j] == c
  {
    if n > 0 {
      RepeatChar(c, n - 1);
    }
  }
}
