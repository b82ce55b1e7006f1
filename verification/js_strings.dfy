/** The JavaScript string operations the core relies on, with the semantics
    ECMAScript gives them: `trim`, `slice` (with clamped and end-relative
    indices), `split` on one character, `join`, `startsWith`, `includes`,
    `toLowerCase` (on ASCII letters), a global character replace, the
    `/\s+/g` replace, and decimal rendering of a non-negative number. */
module JsStrings {

  /** The characters ECMAScript counts as WhiteSpace or LineTerminator: the
      set `trim` strips and the regular expression class `\s` matches. */
  predicate IsWhitespace(c: char) {
    c == ' ' || c == '\t' || c == '\n' || c == '\U{b}' || c == '\U{c}' || c == '\r'
    || c == '\U{a0}' || c == '\U{1680}' || c == '\U{2000}' || c == '\U{2001}' || c == '\U{2002}' || c == '\U{2003}' || c == '\U{2004}' || c == '\U{2005}' || c == '\U{2006}' || c == '\U{2007}' || c == '\U{2008}' || c == '\U{2009}' || c == '\U{200a}'
    || c == '\U{2028}' || c == '\U{2029}' || c == '\U{202f}' || c == '\U{205f}'
    || c == '\U{3000}' || c == '\U{feff}'
  }

  predicate AllWhitespace(s: string) {
    forall i :: 0 <= i < |s| ==> IsWhitespace(s[i])
  }

  function TrimStart(s: string): (r: string)
    ensures |r| <= |s|
  {
    if |s| > 0 && IsWhitespace(s[0]) then TrimStart(s[1..]) else s
  }

  function TrimEnd(s: string): (r: string)
    ensures |r| <= |s|
  {
    if |s| > 0 && IsWhitespace(s[|s| - 1]) then TrimEnd(s[..|s| - 1]) else s
  }

  /** `trimStart` removes a whitespace prefix and nothing else, and all of
      it. */
  lemma TrimStartSpec(s: string)
    ensures var r := TrimStart(s);
      && r == s[|s| - |r|..]
      && AllWhitespace(s[..|s| - |r|])
      && (|r| > 0 ==> !IsWhitespace(r[0]))
  {
    if |s| > 0 && IsWhitespace(s[0]) {
      TrimStartSpec(s[1..]);
      var r := TrimStart(s);
      var k := |s| - |r|;
      forall i | 0 <= i < k ensures IsWhitespace(s[..k][i]) {
        if i > 0 { assert s[..k][i] == s[1..][..k - 1][i - 1]; }
      }
    }
  }

  /** `trimEnd` removes a whitespace suffix and nothing else, and all of
      it. */
  lemma TrimEndSpec(s: string)
    ensures var r := TrimEnd(s);
      && r == s[..|r|]
      && AllWhitespace(s[|r|..])
      && (|r| > 0 ==> !IsWhitespace(r[|r| - 1]))
  {
    if |s| > 0 && IsWhitespace(s[|s| - 1]) {
      var s' := s[..|s| - 1];
      TrimEndSpec(s');
      var r := TrimEnd(s);
      forall i | 0 <= i < |s| - |r| ensures IsWhitespace(s[|r|..][i]) {
        if |r| + i < |s| - 1 { assert s[|r|..][i] == s'[|r|..][i]; }
      }
    }
  }

  /** `s.trim()`. */
  function Trim(s: string): string {
    TrimEnd(TrimStart(s))
  }

  /** `s.trim()` is the longest infix of `s` that neither starts nor ends
      with whitespace, obtained by removing only whitespace. */
  lemma TrimIsInfix(s: string)
    ensures exists k :: TrimmedAt(s, Trim(s), k)
    ensures var r := Trim(s); |r| > 0 ==> !IsWhitespace(r[0]) && !IsWhitespace(r[|r| - 1])
  {
    var t := TrimStart(s);
    var r := TrimEnd(t);
    var k := |s| - |t|;
    TrimStartSpec(s);
    TrimEndSpec(t);
    assert r == s[k..k + |r|];
    assert s[k + |r|..] == t[|r|..];
    assert TrimmedAt(s, r, k);
    assert r == Trim(s);
    if |r| > 0 {
      assert r[0] == t[0];
    }
  }

  /** `r` is `s` with `k` whitespace characters removed in front and only
      whitespace removed behind. */
  predicate TrimmedAt(s: string, r: string, k: int) {
    0 <= k <= |s| - |r| && r == s[k..k + |r|]
    && AllWhitespace(s[..k]) && AllWhitespace(s[k + |r|..])
  }

  /** A string trims to nothing exactly when every character is whitespace. */
  lemma TrimEmptyIffBlank(s: string)
    ensures Trim(s) == "" <==> AllWhitespace(s)
  {
    TrimIsInfix(s);
    if Trim(s) == "" {
      var k :| TrimmedAt(s, "", k);
      forall i | 0 <= i < |s| ensures IsWhitespace(s[i]) {
        if i < k { assert s[..k][i] == s[i]; } else { assert s[k..][i - k] == s[i]; }
      }
    }
  }

  /** The index JavaScript's `slice` uses for argument `x` on a string of
      length `len`: negative values count from the end, and the result is
      clamped to `[0, len]`. */
  function SliceIndex(x: int, len: nat): (r: nat)
    ensures r <= len
    ensures 0 <= x <= len ==> r == x
    ensures x > len ==> r == len
  {
    if x < 0 then (if len + x < 0 then 0 else len + x) else if x > len then len else x
  }

  /** `s.slice(a, b)`: never fails; empty when the clamped bounds cross. */
  function Slice(s: string, a: int, b: int): (r: string)
    ensures |r| <= |s|
    ensures 0 <= a <= b <= |s| ==> r == s[a..b]
    ensures 0 <= b <= a ==> r == ""
  {
    var i := SliceIndex(a, |s|);
    var j := SliceIndex(b, |s|);
    if i < j then s[i..j] else ""
  }

  predicate StartsWith(s: string, prefix: string) {
    |prefix| <= |s| && s[..|prefix|] == prefix
  }

  /** `s.includes(sub)`, computed by trying every offset in turn. */
  predicate Includes(s: string, sub: string)
    decreases |s|
  {
    StartsWith(s, sub) || (|s| > 0 && Includes(s[1..], sub))
  }

  predicate OccursAt(s: string, sub: string, i: int) {
    0 <= i <= |s| - |sub| && s[i..i + |sub|] == sub
  }

  /** `Includes` holds exactly when `sub` occurs at some offset of `s`. */
  lemma {:induction false} IncludesIffOccurs(s: string, sub: string)
    ensures Includes(s, sub) <==> exists i :: OccursAt(s, sub, i)
    decreases |s|
  {
    if StartsWith(s, sub) {
      assert OccursAt(s, sub, 0);
    }
    if |s| > 0 {
      IncludesIffOccurs(s[1..], sub);
      if Includes(s[1..], sub) {
        var i :| OccursAt(s[1..], sub, i);
        assert s[i + 1..i + 1 + |sub|] == s[1..][i..i + |sub|];
        assert OccursAt(s, sub, i + 1);
      }
      if exists i :: OccursAt(s, sub, i) {
        var i :| OccursAt(s, sub, i);
        if i > 0 {
          assert s[1..][i - 1..i - 1 + |sub|] == s[i..i + |sub|];
          assert OccursAt(s[1..], sub, i - 1);
        }
      }
    }
  }

  function LowerChar(c: char): char {
    if 'A' <= c <= 'Z' then (c as int + 32) as char else c
  }

  /** `s.toLowerCase()` restricted to ASCII letters. */
  function ToLower(s: string): (r: string)
    ensures |r| == |s|
    ensures forall i :: 0 <= i < |s| ==> r[i] == LowerChar(s[i])
  {
    if |s| == 0 then "" else [LowerChar(s[0])] + ToLower(s[1..])
  }

  /** `s.replace(/a/g, b)` for single characters `a` and `b`. */
  function ReplaceChar(s: string, a: char, b: char): (r: string)
    ensures |r| == |s|
    ensures forall i :: 0 <= i < |s| ==> r[i] == (if s[i] == a then b else s[i])
  {
    if |s| == 0 then "" else [if s[0] == a then b else s[0]] + ReplaceChar(s[1..], a, b)
  }

  /** A global character replace distributes over concatenation. */
  lemma ReplaceCharConcat(x: string, y: string, a: char, b: char)
    ensures ReplaceChar(x + y, a, b) == ReplaceChar(x, a, b) + ReplaceChar(y, a, b)
  {
    var l := ReplaceChar(x + y, a, b);
    var r := ReplaceChar(x, a, b) + ReplaceChar(y, a, b);
    assert forall i :: 0 <= i < |l| ==> l[i] == r[i];
  }

  /** `s.replace(/\s+/g, rep)`: every maximal run of whitespace becomes `rep`;
      a string without whitespace comes back unchanged. */
  function ReplaceWhitespaceRuns(s: string, rep: string): (r: string)
    ensures (forall i :: 0 <= i < |rep| ==> !IsWhitespace(rep[i])) ==>
              forall i :: 0 <= i < |r| ==> !IsWhitespace(r[i])
    ensures rep == "" ==> |r| <= |s|
    ensures (forall i :: 0 <= i < |s| ==> !IsWhitespace(s[i])) ==> r == s
    decreases |s|
  {
    if |s| == 0 then ""
    else if IsWhitespace(s[0]) then rep + ReplaceWhitespaceRuns(TrimStart(s), rep)
    else
      assert forall i :: 0 <= i < |s| - 1 ==> s[1..][i] == s[i + 1];
      [s[0]] + ReplaceWhitespaceRuns(s[1..], rep)
  }

  /** The same replace read one character at a time, the way the regular
      expression engine scans: a whitespace character that opens a run
      (`inRun` false) emits `rep`, one that continues a run emits nothing,
      and every other character is copied and ends the run. */
  function CollapseRuns(s: string, rep: string, inRun: bool): string {
    if |s| == 0 then ""
    else if IsWhitespace(s[0]) then (if inRun then "" else rep) + CollapseRuns(s[1..], rep, true)
    else [s[0]] + CollapseRuns(s[1..], rep, false)
  }

  /** Inside a run, the rest of the run's whitespace emits nothing: scanning
      on is scanning the text after the run as if no run were open. */
  lemma {:induction false} CollapseInRunSkipsRun(t: string, rep: string)
    ensures CollapseRuns(t, rep, true) == CollapseRuns(TrimStart(t), rep, false)
  {
    if |t| > 0 && IsWhitespace(t[0]) {
      CollapseInRunSkipsRun(t[1..], rep);
    }
  }

  /** The recursive replace and the character scan agree on every string and
      every replacement: each maximal whitespace run becomes exactly one
      `rep`, and every other character is kept, in order. */
  lemma {:induction false} ReplaceWhitespaceRunsIsScan(s: string, rep: string)
    ensures ReplaceWhitespaceRuns(s, rep) == CollapseRuns(s, rep, false)
    decreases |s|
  {
    if |s| > 0 {
      if IsWhitespace(s[0]) {
        ReplaceWhitespaceRunsIsScan(TrimStart(s), rep);
        CollapseInRunSkipsRun(s[1..], rep);
        assert TrimStart(s) == TrimStart(s[1..]);
      } else {
        ReplaceWhitespaceRunsIsScan(s[1..], rep);
      }
    }
  }

  /** The characters of `s` that are not whitespace, in order. */
  function RemoveWhitespace(s: string): (r: string)
    ensures forall i :: 0 <= i < |r| ==> !IsWhitespace(r[i])
  {
    if |s| == 0 then ""
    else (if IsWhitespace(s[0]) then "" else [s[0]]) + RemoveWhitespace(s[1..])
  }

  lemma {:induction false} CollapseEmptyRemoves(s: string, inRun: bool)
    ensures CollapseRuns(s, "", inRun) == RemoveWhitespace(s)
  {
    if |s| > 0 {
      CollapseEmptyRemoves(s[1..], IsWhitespace(s[0]));
    }
  }

  /** `s.replace(/\s+/g, '')` deletes every whitespace character and keeps
      the others in order. */
  lemma ReplaceWithNothingRemovesWhitespace(s: string)
    ensures ReplaceWhitespaceRuns(s, "") == RemoveWhitespace(s)
  {
    ReplaceWhitespaceRunsIsScan(s, "");
    CollapseEmptyRemoves(s, false);
  }

  /** A double space becomes one hyphen, or nothing. */
  lemma ReplaceWhitespaceRunsExample()
    ensures ReplaceWhitespaceRuns("a  b", "-") == "a-b"
    ensures ReplaceWhitespaceRuns("a  b", "") == "ab"
  {
    assert "a  b"[1..] == "  b" && "  b"[1..] == " b" && " b"[1..] == "b";
    assert TrimStart(" b") == "b";
    assert TrimStart("  b") == "b";
    assert ReplaceWhitespaceRuns("b", "-") == "b" && ReplaceWhitespaceRuns("b", "") == "b";
  }

  /** The number of UTF-16 code units a character takes: two for a
      character beyond the Basic Multilingual Plane (a surrogate pair), one
      otherwise. */
  function Utf16Units(c: char): nat {
    if c as int < 0x1_0000 then 1 else 2
  }

  /** `s.length`: JavaScript counts UTF-16 code units, not characters. */
  function Utf16Length(s: string): (n: nat)
    ensures |s| <= n <= 2 * |s|
  {
    if |s| == 0 then 0 else Utf16Units(s[0]) + Utf16Length(s[1..])
  }

  /** The length in code units adds up over concatenation. */
  lemma {:induction false} Utf16LengthConcat(x: string, y: string)
    ensures Utf16Length(x + y) == Utf16Length(x) + Utf16Length(y)
  {
    if |x| > 0 {
      assert (x + y)[1..] == x[1..] + y;
      Utf16LengthConcat(x[1..], y);
    } else {
      assert x + y == y;
    }
  }

  /** The length in code units equals the number of characters exactly when
      every character lies in the Basic Multilingual Plane. */
  lemma {:induction false} Utf16LengthIsLengthIffBmp(s: string)
    ensures Utf16Length(s) == |s| <==> forall i :: 0 <= i < |s| ==> s[i] as int < 0x1_0000
  {
    if |s| > 0 {
      Utf16LengthIsLengthIffBmp(s[1..]);
      assert forall i :: 0 < i < |s| ==> s[i] == s[1..][i - 1];
    }
  }

  /** An emoji is one character but two code units. */
  lemma EmojiIsTwoUnits()
    ensures |"\U{1F642}"| == 1 && Utf16Length("\U{1F642}") == 2
  {
  }

  /** `parts.join(sep)` for a one-character separator. */
  function Join(parts: seq<string>, sep: char): string
    requires |parts| >= 1
  {
    if |parts| == 1 then parts[0] else parts[0] + [sep] + Join(parts[1..], sep)
  }

  /** `parts.join('')`. */
  function Concat(parts: seq<string>): string {
    if |parts| == 0 then "" else parts[0] + Concat(parts[1..])
  }

  function Occurrences(s: string, c: char): nat {
    if |s| == 0 then 0 else (if s[0] == c then 1 else 0) + Occurrences(s[1..], c)
  }

  /** `s.split(c)`: one more part than there are separators, no part holds the
      separator, and joining the parts with it gives back `s`. */
  function Split(s: string, c: char): (parts: seq<string>)
    ensures |parts| == Occurrences(s, c) + 1
    ensures forall i :: 0 <= i < |parts| ==> c !in parts[i]
    ensures Join(parts, c) == s
  {
    if |s| == 0 then [""]
    else
      var rest := Split(s[1..], c);
      if s[0] == c then
        assert s == [c] + Join(rest, c);
        [""] + rest
      else
        var parts := [[s[0]] + rest[0]] + rest[1..];
        assert parts[1..] == rest[1..];
        assert s == [s[0]] + s[1..];
        parts
  }

  function DigitChar(d: nat): (c: char)
    requires d < 10
    ensures '0' <= c <= '9' && c as int - '0' as int == d
  {
    ('0' as int + d) as char
  }

  /** The decimal rendering JavaScript gives a non-negative integer in a
      template string. */
  function NatToString(n: nat): (r: string)
    ensures |r| >= 1
    ensures forall i :: 0 <= i < |r| ==> '0' <= r[i] <= '9'
    ensures |r| > 1 ==> r[0] != '0'
  {
    if n < 10 then [DigitChar(n)] else NatToString(n / 10) + [DigitChar(n % 10)]
  }

  /** The value of a string of decimal digits. */
  function DecimalValue(s: string): nat
    requires forall i :: 0 <= i < |s| ==> '0' <= s[i] <= '9'
  {
    if |s| == 0 then 0 else 10 * DecimalValue(s[..|s| - 1]) + (s[|s| - 1] as int - '0' as int)
  }

  /** Reading the decimal rendering back gives the number: a slide index
      written into a marker can be recovered from it. */
  lemma {:induction false} DecimalRoundTrip(n: nat)
    ensures DecimalValue(NatToString(n)) == n
  {
    if n >= 10 {
      var q, d := n / 10, n % 10;
      DecimalRoundTrip(q);
      var r := NatToString(n);
      assert r == NatToString(q) + [DigitChar(d)];
      assert r[..|r| - 1] == NatToString(q);
      assert r[|r| - 1] as int - '0' as int == d;
      assert n == 10 * q + d;
    }
  }
}
