/** Python `str` operations on `seq<char>`, restricted where noted to ASCII case rules. */
module Strings {
  import opened Wrappers

  /** Python's `str.isspace()` on one character. */
  predicate IsSpace(c: char) {
    c == ' ' || ('\t' <= c <= '\r') || ('\U{1c}' <= c <= '\U{1f}') || c == '\U{85}' || c == '\U{a0}'
    || c == '\U{1680}' || ('\U{2000}' <= c <= '\U{200a}') || c == '\U{2028}' || c == '\U{2029}'
    || c == '\U{202f}' || c == '\U{205f}' || c == '\U{3000}'
  }

  predicate IsLower(c: char) { 'a' <= c <= 'z' }
  predicate IsUpper(c: char) { 'A' <= c <= 'Z' }
  predicate IsLetter(c: char) { IsLower(c) || IsUpper(c) }
  predicate IsDigit(c: char) { '0' <= c <= '9' }
  predicate IsAlnum(c: char) { IsLetter(c) || IsDigit(c) }

  function ToUpper(c: char): (r: char)
    ensures IsLower(c) ==> IsUpper(r)
    ensures !IsLower(c) ==> r == c
  {
    if IsLower(c) then (c as int - 32) as char else c
  }

  function ToLower(c: char): (r: char)
    ensures IsUpper(c) ==> IsLower(r)
    ensures !IsUpper(c) ==> r == c
  {
    if IsUpper(c) then (c as int + 32) as char else c
  }

  /** Python's `str.lower()` on ASCII letters. */
  function LowerStr(s: string): (r: string)
    ensures |r| == |s| && forall i :: 0 <= i < |s| ==> r[i] == ToLower(s[i])
  {
    if |s| == 0 then "" else [ToLower(s[0])] + LowerStr(s[1..])
  }

  // ---------------------------------------------------------------- strip

  function StripLeft(s: string): (r: string)
    ensures |r| <= |s| && r == s[|s| - |r|..]
    ensures |r| > 0 ==> !IsSpace(r[0])
    ensures forall i :: 0 <= i < |s| - |r| ==> IsSpace(s[i])
  {
    if |s| > 0 && IsSpace(s[0]) then StripLeft(s[1..]) else s
  }

  function StripRight(s: string): (r: string)
    ensures |r| <= |s| && r == s[..|r|]
    ensures |r| > 0 ==> !IsSpace(r[|r| - 1])
    ensures forall i :: |r| <= i < |s| ==> IsSpace(s[i])
  {
    if |s| > 0 && IsSpace(s[|s| - 1]) then StripRight(s[..|s| - 1]) else s
  }

  /** Python's `str.strip()`: no leading or trailing whitespace is left. */
  function Strip(s: string): (r: string)
    ensures |r| <= |s|
    ensures |r| > 0 ==> !IsSpace(r[0]) && !IsSpace(r[|r| - 1])
  {
    StripRight(StripLeft(s))
  }

  /** Whitespace-only (or empty) strings are exactly those that strip to "". */
  lemma StripEmptyIffBlank(s: string)
    ensures Strip(s) == "" <==> forall i :: 0 <= i < |s| ==> IsSpace(s[i])
  {
    var l := StripLeft(s);
    if Strip(s) == "" {
      assert l == "";
    } else {
      var j := |s| - |l|;
      assert s[j] == l[0];
    }
  }

  /** A string without leading or trailing whitespace strips to itself. */
  lemma StripTrimmed(s: string)
    requires |s| > 0 ==> !IsSpace(s[0]) && !IsSpace(s[|s| - 1])
    ensures Strip(s) == s
  {
  }

  // ---------------------------------------------------------------- split / join

  /** Python's `s.split(d)` for a one-character separator: never empty, keeps empty fields. */
  function Split(s: string, d: char): (r: seq<string>)
    ensures |r| >= 1
    ensures forall i :: 0 <= i < |r| ==> d !in r[i]
  {
    if |s| == 0 then [""]
    else
      var rest := Split(s[1..], d);
      if s[0] == d then [""] + rest else [[s[0]] + rest[0]] + rest[1..]
  }

  /** Python's `sep.join(parts)`. */
  function Join(sep: string, parts: seq<string>): (r: string)
  {
    if |parts| == 0 then "" else if |parts| == 1 then parts[0] else parts[0] + sep + Join(sep, parts[1..])
  }

  lemma {:induction false} JoinConsChar(sep: string, c: char, w: string, ws: seq<string>)
    ensures Join(sep, [[c] + w] + ws) == [c] + Join(sep, [w] + ws)
  {
    if |ws| > 0 {
      assert ([[c] + w] + ws)[1..] == ws;
      assert ([w] + ws)[1..] == ws;
    }
  }

  /** Joining the fields of a split with the separator gives back the string. */
  lemma {:induction false} JoinSplit(s: string, d: char)
    ensures Join([d], Split(s, d)) == s
  {
    if |s| > 0 {
      var rest := Split(s[1..], d);
      JoinSplit(s[1..], d);
      if s[0] == d {
        assert ([""] + rest)[1..] == rest;
      } else {
        JoinConsChar([d], s[0], rest[0], rest[1..]);
        assert [rest[0]] + rest[1..] == rest;
      }
    }
  }

  /** Splitting a join of separator-free fields gives back the fields. */
  lemma {:induction false} SplitJoin(parts: seq<string>, d: char)
    requires |parts| >= 1
    requires forall i :: 0 <= i < |parts| ==> d !in parts[i]
    ensures Split(Join([d], parts), d) == parts
    decreases |parts|, |parts[0]|
  {
    var p := parts[0];
    if |p| == 0 {
      if |parts| > 1 {
        SplitJoin(parts[1..], d);
        assert Join([d], parts) == [d] + Join([d], parts[1..]);
        assert ([d] + Join([d], parts[1..]))[1..] == Join([d], parts[1..]);
      }
    } else {
      var parts' := [p[1..]] + parts[1..];
      assert parts'[1..] == parts[1..];
      SplitJoin(parts', d);
      assert p == [p[0]] + p[1..];
      assert parts == [[p[0]] + p[1..]] + parts[1..];
      JoinConsChar([d], p[0], p[1..], parts[1..]);
      var j := Join([d], parts);
      assert j[1..] == Join([d], parts');
    }
  }

  // ---------------------------------------------------------------- search

  /** `sub` occurs in `s` at index `j`. */
  predicate OccursAt(s: string, sub: string, j: int) {
    0 <= j && j + |sub| <= |s| && s[j..j + |sub|] == sub
  }

  /**
   * The first index at which `sub` occurs in `s`, or `None`: `sub in s` holds exactly when
   * there is one, and `s.split(sub)[0]` is the text before it.
   */
  function IndexOf(s: string, sub: string): (r: Option<nat>)
    ensures r.Some? ==> OccursAt(s, sub, r.value) && forall j :: 0 <= j < r.value ==> !OccursAt(s, sub, j)
    ensures r.None? ==> forall j :: !OccursAt(s, sub, j)
  {
    if OccursAt(s, sub, 0) then Some(0)
    else if |s| == 0 then None
    else
      var r' := IndexOf(s[1..], sub);
      OccursShift(s, sub);
      if r'.Some? then Some(r'.value + 1) else None
  }

  lemma OccursShift(s: string, sub: string)
    requires |s| > 0
    ensures forall j :: j >= 1 ==> (OccursAt(s, sub, j) <==> OccursAt(s[1..], sub, j - 1))
  {
    forall j | j >= 1 ensures OccursAt(s, sub, j) <==> OccursAt(s[1..], sub, j - 1) {
      if j + |sub| <= |s| {
        assert s[1..][j - 1..j - 1 + |sub|] == s[j..j + |sub|];
      }
    }
  }

  /** Python's `sub in s`. */
  predicate Contains(s: string, sub: string) {
    IndexOf(s, sub).Some?
  }

  /** Python's `s.startswith(p)`. */
  predicate StartsWith(s: string, p: string) {
    |p| <= |s| && s[..|p|] == p
  }

  /** Python's `s.endswith(p)`. */
  predicate EndsWith(s: string, p: string) {
    |p| <= |s| && s[|s| - |p|..] == p
  }

  // ---------------------------------------------------------------- replace

  /** Python's `s.replace(pat, rep)`: non-overlapping occurrences, left to right. */
  function ReplaceAll(s: string, pat: string, rep: string): (r: string)
    requires |pat| > 0
    decreases |s|
  {
    if |s| < |pat| then s
    else if s[..|pat|] == pat then rep + ReplaceAll(s[|pat|..], pat, rep)
    else [s[0]] + ReplaceAll(s[1..], pat, rep)
  }

  /** Replacing by something no longer never lengthens the string. */
  lemma {:induction false} ReplaceAllShortens(s: string, pat: string, rep: string)
    requires |pat| > 0 && |rep| <= |pat|
    ensures |ReplaceAll(s, pat, rep)| <= |s|
    decreases |s|
  {
    if |s| >= |pat| {
      if s[..|pat|] == pat {
        ReplaceAllShortens(s[|pat|..], pat, rep);
      } else {
        ReplaceAllShortens(s[1..], pat, rep);
      }
    }
  }

  /** Removing every `c` from text holding a single `c` joins the parts on either side of it. */
  lemma {:induction false} DropSoleChar(x: string, y: string, c: char)
    requires c !in x && c !in y
    ensures ReplaceAll(x + [c] + y, [c], "") == x + y
    decreases |x|
  {
    if |x| == 0 {
      assert x + [c] + y == [c] + y;
      ReplaceCharAbsent(y, c, "");
    } else {
      assert (x + [c] + y)[1..] == x[1..] + [c] + y;
      DropSoleChar(x[1..], y, c);
    }
  }

  /** A string without the character is left as it is. */
  lemma {:induction false} ReplaceCharAbsent(s: string, c: char, rep: string)
    requires c !in s
    ensures ReplaceAll(s, [c], rep) == s
    decreases |s|
  {
    if |s| > 0 {
      ReplaceCharAbsent(s[1..], c, rep);
    }
  }

  /** A character that is not whitespace survives `strip()`. */
  lemma StripKeeps(s: string, k: nat)
    requires k < |s| && !IsSpace(s[k])
    ensures s[k] in Strip(s)
  {
    var l := StripLeft(s);
    assert l[k - (|s| - |l|)] == s[k];
    var r := StripRight(l);
    assert r[k - (|s| - |l|)] == s[k];
  }

  /** Number of occurrences of `c` in `s`. */
  function CountChar(s: string, c: char): nat {
    if |s| == 0 then 0 else (if s[0] == c then 1 else 0) + CountChar(s[1..], c)
  }

  lemma {:induction false} CountCharAppend(a: string, b: string, c: char)
    ensures CountChar(a + b, c) == CountChar(a, c) + CountChar(b, c)
  {
    if |a| == 0 {
      assert a + b == b;
    } else {
      assert (a + b)[1..] == a[1..] + b;
      CountCharAppend(a[1..], b, c);
    }
  }

  /**
   * When `rep` is `pat` with one occurrence of `c` removed, every replacement removes
   * exactly one `c`, so `c` can only become rarer, and a string without `c` is unchanged.
   */
  lemma {:induction false} ReplaceAllDropsChar(s: string, pat: string, rep: string, c: char)
    requires |pat| > 0 && c in pat
    requires CountChar(rep, c) < CountChar(pat, c)
    ensures CountChar(ReplaceAll(s, pat, rep), c) <= CountChar(s, c)
    ensures CountChar(s, c) == 0 ==> ReplaceAll(s, pat, rep) == s
    decreases |s|
  {
    if |s| >= |pat| {
      if s[..|pat|] == pat {
        ReplaceAllDropsChar(s[|pat|..], pat, rep, c);
        CountCharAppend(rep, ReplaceAll(s[|pat|..], pat, rep), c);
        assert s == pat + s[|pat|..];
        CountCharAppend(pat, s[|pat|..], c);
        if CountChar(s, c) == 0 {
          CountPositive(pat, c);
        }
      } else {
        ReplaceAllDropsChar(s[1..], pat, rep, c);
        CountCharAppend([s[0]], ReplaceAll(s[1..], pat, rep), c);
        assert s == [s[0]] + s[1..];
        CountCharAppend([s[0]], s[1..], c);
      }
    }
  }

  lemma {:induction false} CountAbsent(s: string, c: char)
    requires c !in s
    ensures CountChar(s, c) == 0
  {
    if |s| > 0 {
      CountAbsent(s[1..], c);
    }
  }

  lemma {:induction false} CountPositive(s: string, c: char)
    requires c in s
    ensures CountChar(s, c) > 0
  {
    if s[0] != c {
      CountPositive(s[1..], c);
    }
  }

  // ---------------------------------------------------------------- numbers

  function DigitChar(d: nat): (c: char)
    requires d < 10
    ensures IsDigit(c)
  {
    ('0' as int + d) as char
  }

  /** Python's `str(n)` for a natural number. */
  function NatToString(n: nat): (r: string)
    ensures |r| > 0 && forall i :: 0 <= i < |r| ==> IsDigit(r[i])
  {
    if n < 10 then [DigitChar(n)] else NatToString(n / 10) + [DigitChar(n % 10)]
  }

  /** Python's `str(i)` for an integer. */
  function IntToString(i: int): (r: string)
    ensures |r| > 0 && (IsDigit(r[0]) || r[0] == '-')
  {
    if i < 0 then "-" + NatToString(-i) else NatToString(i)
  }
}
