/** The part of Go's `strings` and `unicode` packages that the listing parser
    relies on: `Split` on a newline, `Fields`, `TrimSpace`, `ToLower`,
    `HasPrefix` and `TrimPrefix`, each with the property that pins it down. */
module GoStrings {

  /** Go's `unicode.IsSpace`: the Latin-1 white space characters plus every
      other character with the Unicode White_Space property. */
  predicate IsSpace(c: char) {
    || c == '\t' || c == '\n' || c == '\U{000B}' || c == '\U{000C}' || c == '\r' || c == ' '
    || c == '\U{0085}' || c == '\U{00A0}' || c == '\U{1680}'
    || ('\U{2000}' <= c <= '\U{200A}')
    || c == '\U{2028}' || c == '\U{2029}' || c == '\U{202F}' || c == '\U{205F}' || c == '\U{3000}'
  }

  predicate AllSpace(s: string) {
    forall i :: 0 <= i < |s| ==> IsSpace(s[i])
  }

  predicate NoSpace(s: string) {
    forall i :: 0 <= i < |s| ==> !IsSpace(s[i])
  }

  function Count(s: string, c: char): nat
    decreases |s|
  {
    if |s| == 0 then 0 else (if s[0] == c then 1 else 0) + Count(s[1..], c)
  }

  /* ------------------------------------------------------------------ */
  /* strings.Split(s, "\n") and its inverse strings.Join(ls, "\n")        */
  /* ------------------------------------------------------------------ */

  /** `strings.Split(s, "\n")`: the pieces between newlines. There is always
      one more piece than there are newlines, so the empty text gives one
      empty line and a trailing newline gives a trailing empty line. */
  function Lines(s: string): (r: seq<string>)
    ensures |r| == Count(s, '\n') + 1
    ensures forall k :: 0 <= k < |r| ==> '\n' !in r[k]
    decreases |s|
  {
    if |s| == 0 then [""]
    else
      var rest := Lines(s[1..]);
      if s[0] == '\n' then [""] + rest
      else [[s[0]] + rest[0]] + rest[1..]
  }

  /** `strings.Join(ls, "\n")`. */
  function JoinLines(ls: seq<string>): string
    decreases |ls|
  {
    if |ls| == 0 then ""
    else if |ls| == 1 then ls[0]
    else ls[0] + "\n" + JoinLines(ls[1..])
  }

  /** Splitting loses nothing: joining the pieces back gives the text. */
  lemma {:induction false} JoinLinesOfLines(s: string)
    ensures JoinLines(Lines(s)) == s
    decreases |s|
  {
    if |s| > 0 {
      var rest := Lines(s[1..]);
      JoinLinesOfLines(s[1..]);
      if s[0] == '\n' {
        assert Lines(s) == [""] + rest;
        assert JoinLines([""] + rest) == "" + "\n" + JoinLines(rest);
        assert s == [s[0]] + s[1..];
      } else {
        var first := [s[0]] + rest[0];
        assert Lines(s) == [first] + rest[1..];
        if |rest| == 1 {
          assert JoinLines([first] + rest[1..]) == first;
        } else {
          assert JoinLines(rest) == rest[0] + "\n" + JoinLines(rest[1..]);
          assert JoinLines([first] + rest[1..]) == first + "\n" + JoinLines(rest[1..]);
        }
        assert s == [s[0]] + s[1..];
      }
    }
  }

  /** Text before the first newline becomes the start of the first piece. */
  lemma {:induction false} LinesPrepend(x: string, t: string)
    requires '\n' !in x
    ensures Lines(x + t) == [x + Lines(t)[0]] + Lines(t)[1..]
    decreases |x|
  {
    if |x| > 0 {
      assert (x + t)[1..] == x[1..] + t;
      assert x[0] in x;
      LinesPrepend(x[1..], t);
      var rest := Lines(x[1..] + t);
      assert (x + t)[0] == x[0] != '\n';
      assert Lines(x + t) == [[x[0]] + rest[0]] + rest[1..];
      assert rest[0] == x[1..] + Lines(t)[0];
      assert rest[1..] == Lines(t)[1..];
      assert [x[0]] + (x[1..] + Lines(t)[0]) == x + Lines(t)[0];
      assert Lines(x + t) == [x + Lines(t)[0]] + Lines(t)[1..];
    } else {
      assert x + t == t;
      assert x + Lines(t)[0] == Lines(t)[0];
      assert Lines(t) == [Lines(t)[0]] + Lines(t)[1..];
    }
  }

  /** Joining newline-free pieces and splitting again gives the pieces back. */
  lemma {:induction false} LinesOfJoinLines(ls: seq<string>)
    requires |ls| >= 1
    requires forall k :: 0 <= k < |ls| ==> '\n' !in ls[k]
    ensures Lines(JoinLines(ls)) == ls
    decreases |ls|
  {
    if |ls| == 1 {
      LinesPrepend(ls[0], "");
      assert ls[0] + "" == ls[0];
    } else {
      LinesOfJoinLines(ls[1..]);
      var t := JoinLines(ls[1..]);
      LinesPrepend(ls[0], "\n" + t);
      assert ("\n" + t)[1..] == t;
      assert Lines("\n" + t) == [""] + Lines(t);
      assert JoinLines(ls) == ls[0] + ("\n" + t);
      assert Lines(ls[0] + ("\n" + t)) == [ls[0] + ""] + Lines(t);
      assert ls[0] + "" == ls[0];
      assert ls == [ls[0]] + ls[1..];
    }
  }

  /* ------------------------------------------------------------------ */
  /* strings.Fields                                                      */
  /* ------------------------------------------------------------------ */

  /** The longest prefix of `s` free of white space. */
  function LeadingWord(s: string): (w: string)
    ensures w <= s
    ensures NoSpace(w)
    ensures |w| == |s| || IsSpace(s[|w|])
    decreases |s|
  {
    if |s| == 0 || IsSpace(s[0]) then "" else [s[0]] + LeadingWord(s[1..])
  }

  /** `strings.Fields`: the maximal runs of non-space characters, in order. */
  function Fields(s: string): (r: seq<string>)
    ensures forall k :: 0 <= k < |r| ==> |r[k]| > 0 && NoSpace(r[k])
    decreases |s|
  {
    if |s| == 0 then []
    else if IsSpace(s[0]) then Fields(s[1..])
    else
      var w := LeadingWord(s);
      [w] + Fields(s[|w|..])
  }

  /** The white-space runs around and between the fields of `s`: the first
      and last may be empty, those between two fields never are. */
  function Gaps(s: string): (r: seq<string>)
    ensures |r| == |Fields(s)| + 1
    ensures forall k :: 0 <= k < |r| ==> AllSpace(r[k])
    ensures |s| > 0 && IsSpace(s[0]) ==> |r[0]| > 0
    decreases |s|
  {
    if |s| == 0 then [""]
    else if IsSpace(s[0]) then
      var g := Gaps(s[1..]);
      [[s[0]] + g[0]] + g[1..]
    else
      var w := LeadingWord(s);
      [""] + Gaps(s[|w|..])
  }

  /** `gaps[0] + ws[0] + gaps[1] + ... + ws[n-1] + gaps[n]`. */
  function Interleave(ws: seq<string>, gaps: seq<string>): string
    requires |gaps| == |ws| + 1
    decreases |ws|
  {
    if |ws| == 0 then gaps[0] else gaps[0] + ws[0] + Interleave(ws[1..], gaps[1..])
  }

  /** Non-empty words without white space. */
  predicate Words(ws: seq<string>) {
    forall k :: 0 <= k < |ws| ==> |ws[k]| > 0 && NoSpace(ws[k])
  }

  /** White-space separators for `ws`: one more than the words, and a
      non-empty one between any two words. */
  predicate Separators(ws: seq<string>, gaps: seq<string>) {
    && |gaps| == |ws| + 1
    && (forall k :: 0 <= k < |gaps| ==> AllSpace(gaps[k]))
    && (forall k :: 0 < k < |ws| ==> |gaps[k]| > 0)
  }

  lemma {:induction false} LeadingWordOf(w: string, t: string)
    requires NoSpace(w)
    requires t == [] || IsSpace(t[0])
    ensures LeadingWord(w + t) == w
    decreases |w|
  {
    if |w| > 0 {
      assert (w + t)[1..] == w[1..] + t;
      LeadingWordOf(w[1..], t);
      assert w == [w[0]] + w[1..];
    } else {
      assert w + t == t;
    }
  }

  /** Leading white space does not change the fields. */
  lemma {:induction false} FieldsSkipSpace(g: string, t: string)
    requires AllSpace(g)
    ensures Fields(g + t) == Fields(t)
    decreases |g|
  {
    if |g| > 0 {
      assert (g + t)[1..] == g[1..] + t;
      FieldsSkipSpace(g[1..], t);
    } else {
      assert g + t == t;
    }
  }

  lemma FieldsOfWord(w: string, t: string)
    requires |w| > 0 && NoSpace(w)
    requires t == [] || IsSpace(t[0])
    ensures Fields(w + t) == [w] + Fields(t)
  {
    LeadingWordOf(w, t);
    assert (w + t)[|w|..] == t;
  }

  /** Fields recovers the words from any white-space separated layout of them. */
  lemma {:induction false} FieldsOfInterleave(ws: seq<string>, gaps: seq<string>)
    requires Words(ws) && Separators(ws, gaps)
    ensures Fields(Interleave(ws, gaps)) == ws
    decreases |ws|
  {
    if |ws| == 0 {
      FieldsSkipSpace(gaps[0], "");
      assert gaps[0] + "" == gaps[0];
    } else {
      var rest := Interleave(ws[1..], gaps[1..]);
      FieldsOfInterleave(ws[1..], gaps[1..]);
      if |ws| > 1 {
        assert rest == gaps[1] + ws[1] + Interleave(ws[2..], gaps[2..]);
        assert rest[0] == gaps[1][0];
      } else {
        assert rest == gaps[1];
      }
      FieldsOfWord(ws[0], rest);
      FieldsSkipSpace(gaps[0], ws[0] + rest);
      assert Interleave(ws, gaps) == gaps[0] + (ws[0] + rest);
      assert ws == [ws[0]] + ws[1..];
    }
  }

  lemma InterleavePrepend(x: string, ws: seq<string>, g0: string, gs: seq<string>)
    requires |gs| == |ws|
    ensures Interleave(ws, [x + g0] + gs) == x + Interleave(ws, [g0] + gs)
  {
    if |ws| > 0 {
      assert ([x + g0] + gs)[1..] == gs;
      assert ([g0] + gs)[1..] == gs;
    }
  }

  /** Every text is its fields laid out with its gaps. */
  lemma {:induction false} FieldsAndGapsCover(s: string)
    ensures Separators(Fields(s), Gaps(s))
    ensures Interleave(Fields(s), Gaps(s)) == s
    decreases |s|
  {
    if |s| == 0 {
    } else if IsSpace(s[0]) {
      FieldsAndGapsCover(s[1..]);
      CoverSpaceStep(s);
    } else {
      FieldsAndGapsCover(s[|LeadingWord(s)|..]);
      CoverWordStep(s);
    }
  }

  /** The covering step for a text that starts with white space. */
  lemma {:induction false} CoverSpaceStep(s: string)
    requires |s| > 0 && IsSpace(s[0])
    requires Separators(Fields(s[1..]), Gaps(s[1..]))
    requires Interleave(Fields(s[1..]), Gaps(s[1..])) == s[1..]
    ensures Separators(Fields(s), Gaps(s))
    ensures Interleave(Fields(s), Gaps(s)) == s
  {
    var g := Gaps(s[1..]);
    InterleavePrepend([s[0]], Fields(s[1..]), g[0], g[1..]);
    assert [g[0]] + g[1..] == g;
    assert s == [s[0]] + s[1..];
  }

  /** The covering step for a text that starts with a word. */
  lemma {:induction false} CoverWordStep(s: string)
    requires |s| > 0 && !IsSpace(s[0])
    requires Separators(Fields(s[|LeadingWord(s)|..]), Gaps(s[|LeadingWord(s)|..]))
    requires Interleave(Fields(s[|LeadingWord(s)|..]), Gaps(s[|LeadingWord(s)|..])) == s[|LeadingWord(s)|..]
    ensures Separators(Fields(s), Gaps(s))
    ensures Interleave(Fields(s), Gaps(s)) == s
  {
    var w := LeadingWord(s);
    var t := s[|w|..];
    WordFirst(s);
    WordSeparators(w, t, Fields(t), Gaps(t));
    WordInterleave(w, Fields(t), Gaps(t));
  }

  /** How fields and gaps unfold over a leading word. */
  lemma {:induction false} WordFirst(s: string)
    requires |s| > 0 && !IsSpace(s[0])
    ensures Fields(s) == [LeadingWord(s)] + Fields(s[|LeadingWord(s)|..])
    ensures Gaps(s) == [""] + Gaps(s[|LeadingWord(s)|..])
    ensures s == LeadingWord(s) + s[|LeadingWord(s)|..]
    ensures |s[|LeadingWord(s)|..]| > 0 ==> IsSpace(s[|LeadingWord(s)|..][0])
  {
  }

  /** A word in front keeps the separators valid, provided the rest is
      empty or starts with white space. */
  lemma {:induction false} WordSeparators(w: string, t: string, ws: seq<string>, gs: seq<string>)
    requires Separators(ws, gs)
    requires |ws| > 0 ==> |t| > 0 && IsSpace(t[0])
    requires |t| > 0 && IsSpace(t[0]) ==> |gs[0]| > 0
    ensures Separators([w] + ws, [""] + gs)
  {
    var ws', gs' := [w] + ws, [""] + gs;
    forall k | 0 <= k < |gs'|
      ensures AllSpace(gs'[k])
    {
      if k > 0 { assert gs'[k] == gs[k - 1]; }
    }
    forall k | 0 < k < |ws'|
      ensures |gs'[k]| > 0
    {
      assert gs'[k] == gs[k - 1];
    }
  }

  /** A word in front of the words lands right after an empty first gap. */
  lemma {:induction false} WordInterleave(w: string, ws: seq<string>, gs: seq<string>)
    requires |gs| == |ws| + 1
    ensures Interleave([w] + ws, [""] + gs) == w + Interleave(ws, gs)
  {
    assert ([w] + ws)[1..] == ws;
    assert ([""] + gs)[1..] == gs;
  }

  /** A text has no fields exactly when it is all white space. */
  lemma FieldsEmptyIffAllSpace(s: string)
    ensures Fields(s) == [] <==> AllSpace(s)
  {
    FieldsAndGapsCover(s);
    if AllSpace(s) {
      FieldsOfInterleave([], [s]);
    }
  }

  /* ------------------------------------------------------------------ */
  /* strings.TrimSpace                                                   */
  /* ------------------------------------------------------------------ */

  function TrimLeft(s: string): string
    decreases |s|
  {
    if |s| > 0 && IsSpace(s[0]) then TrimLeft(s[1..]) else s
  }

  function TrimRight(s: string): string
    decreases |s|
  {
    if |s| > 0 && IsSpace(s[|s| - 1]) then TrimRight(s[..|s| - 1]) else s
  }

  /** TrimLeft removes a white-space prefix and stops at a non-space. */
  lemma {:induction false} TrimLeftShape(s: string) returns (a: string)
    ensures s == a + TrimLeft(s)
    ensures AllSpace(a)
    ensures TrimLeft(s) == [] || !IsSpace(TrimLeft(s)[0])
    decreases |s|
  {
    if |s| > 0 && IsSpace(s[0]) {
      var a' := TrimLeftShape(s[1..]);
      a := [s[0]] + a';
      assert s == [s[0]] + s[1..];
    } else {
      a := "";
    }
  }

  /** TrimRight removes a white-space suffix and stops at a non-space. */
  lemma {:induction false} TrimRightShape(s: string) returns (b: string)
    ensures s == TrimRight(s) + b
    ensures AllSpace(b)
    ensures TrimRight(s) == [] || !IsSpace(TrimRight(s)[|TrimRight(s)| - 1])
    decreases |s|
  {
    if |s| > 0 && IsSpace(s[|s| - 1]) {
      var s' := s[..|s| - 1];
      var b' := TrimRightShape(s');
      b := b' + [s[|s| - 1]];
      assert s == s' + [s[|s| - 1]];
    } else {
      b := "";
    }
  }

  lemma TrimBoth(s: string)
    ensures var r := TrimRight(TrimLeft(s));
            && (r == [] <==> AllSpace(s))
            && (r != [] ==> !IsSpace(r[0]) && !IsSpace(r[|r| - 1]))
            && (NoSpace(s) ==> r == s)
  {
    var l := TrimLeft(s);
    var r := TrimRight(l);
    var a := TrimLeftShape(s);
    var b := TrimRightShape(l);
    assert s == a + (r + b);
    if r != [] {
      assert r[0] == l[0];
      assert s[|a|] == r[0];
    }
    if NoSpace(s) && |s| > 0 {
      assert !IsSpace(s[|s| - 1]);
    }
  }

  /** `strings.TrimSpace`: `s` without leading and trailing white space. */
  function TrimSpace(s: string): (r: string)
    ensures r == [] <==> AllSpace(s)
    ensures r != [] ==> !IsSpace(r[0]) && !IsSpace(r[|r| - 1])
    ensures NoSpace(s) ==> r == s
  {
    TrimBoth(s);
    TrimRight(TrimLeft(s))
  }

  /** What TrimSpace removes is white space on both sides of what it keeps. */
  lemma TrimSpaceSplit(s: string) returns (a: string, b: string)
    ensures s == a + TrimSpace(s) + b
    ensures AllSpace(a) && AllSpace(b)
  {
    var l := TrimLeft(s);
    var r := TrimRight(l);
    a := TrimLeftShape(s);
    b := TrimRightShape(l);
    AppendAssoc(a, r, b);
  }

  lemma AppendAssoc(a: string, r: string, b: string)
    ensures a + (r + b) == a + r + b
  {
  }

  lemma {:induction false} TrimLeftSkip(a: string, t: string)
    requires AllSpace(a)
    ensures TrimLeft(a + t) == TrimLeft(t)
    decreases |a|
  {
    if |a| > 0 {
      assert (a + t)[1..] == a[1..] + t;
      TrimLeftSkip(a[1..], t);
    } else {
      assert a + t == t;
    }
  }

  lemma {:induction false} TrimRightSkip(t: string, b: string)
    requires AllSpace(b)
    ensures TrimRight(t + b) == TrimRight(t)
    decreases |b|
  {
    if |b| > 0 {
      var b' := b[..|b| - 1];
      assert (t + b)[..|t + b| - 1] == t + b';
      TrimRightSkip(t, b');
    } else {
      assert t + b == t;
    }
  }

  /** TrimSpace keeps exactly the middle of a text padded with white space. */
  lemma TrimSpacePadded(a: string, m: string, b: string)
    requires AllSpace(a) && AllSpace(b)
    requires m == [] || (!IsSpace(m[0]) && !IsSpace(m[|m| - 1]))
    ensures TrimSpace(a + m + b) == m
  {
    assert a + m + b == a + (m + b);
    TrimLeftSkip(a, m + b);
    if m == [] {
      assert m + b == b;
      assert AllSpace(a + m + b);
    } else {
      assert TrimLeft(m + b) == m + b;
      TrimRightSkip(m, b);
    }
  }

  /* ------------------------------------------------------------------ */
  /* strings.ToLower                                                     */
  /* ------------------------------------------------------------------ */

  /** `unicode.ToLower` on ASCII, together with the only two other
      characters whose lower case is ASCII (capital I with dot above and
      the Kelvin sign). Other characters are kept as they are. */
  function LowerRune(c: char): char {
    if 'A' <= c <= 'Z' then (c as int + 32) as char
    else if c == '\U{0130}' then 'i'
    else if c == '\U{212A}' then 'k'
    else c
  }

  /** `strings.ToLower`, character by character. */
  function ToLower(s: string): string {
    seq(|s|, i requires 0 <= i < |s| => LowerRune(s[i]))
  }

  /** Lower-casing never creates or removes white space. */
  lemma LowerRuneKeepsSpace(c: char)
    ensures IsSpace(LowerRune(c)) <==> IsSpace(c)
  {
  }

  /** Lower-casing twice is lower-casing once. */
  lemma ToLowerIdempotent(s: string)
    ensures ToLower(ToLower(s)) == ToLower(s)
  {
  }

  lemma ToLowerAppend(a: string, b: string)
    ensures ToLower(a + b) == ToLower(a) + ToLower(b)
  {
  }

  lemma ToLowerKeepsSpace(s: string)
    ensures AllSpace(s) ==> AllSpace(ToLower(s))
    ensures NoSpace(s) ==> NoSpace(ToLower(s))
  {
    forall i | 0 <= i < |s| {
      LowerRuneKeepsSpace(s[i]);
    }
  }

  /** Trimming and lower-casing commute. */
  lemma TrimSpaceToLower(s: string)
    ensures TrimSpace(ToLower(s)) == ToLower(TrimSpace(s))
  {
    var a, b := TrimSpaceSplit(s);
    LowerPadded(a, TrimSpace(s), b);
  }

  lemma LowerPadded(a: string, m: string, b: string)
    requires AllSpace(a) && AllSpace(b)
    requires m == [] || (!IsSpace(m[0]) && !IsSpace(m[|m| - 1]))
    ensures TrimSpace(ToLower(a + m + b)) == ToLower(m)
  {
    ToLowerAppend(a + m, b);
    ToLowerAppend(a, m);
    ToLowerKeepsSpace(a);
    ToLowerKeepsSpace(b);
    var lm := ToLower(m);
    if m != [] {
      LowerRuneKeepsSpace(m[0]);
      LowerRuneKeepsSpace(m[|m| - 1]);
      assert lm[0] == LowerRune(m[0]);
      assert lm[|lm| - 1] == LowerRune(m[|m| - 1]);
    }
    TrimSpacePadded(ToLower(a), lm, ToLower(b));
  }

  /* ------------------------------------------------------------------ */
  /* strings.HasPrefix / strings.TrimPrefix                              */
  /* ------------------------------------------------------------------ */

  predicate HasPrefix(s: string, p: string) {
    p <= s
  }

  /** `strings.TrimPrefix`: drops `p` when `s` starts with it, else keeps `s`. */
  function TrimPrefix(s: string, p: string): (r: string)
    ensures HasPrefix(s, p) ==> p + r == s
    ensures !HasPrefix(s, p) ==> r == s
  {
    if p <= s then s[|p|..] else s
  }

  /** Re-applying a stripped prefix gives the original, and stripping an
      applied prefix gives the original. */
  lemma PrefixRoundTrip(s: string, p: string, x: string)
    ensures HasPrefix(s, p) ==> p + TrimPrefix(s, p) == s
    ensures HasPrefix(p + x, p) && TrimPrefix(p + x, p) == x
  {
  }
}
