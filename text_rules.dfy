/**
 * The string transforms and element filters of lib/validators.py: `TextFormatter`,
 * `URLValidator` and `ListCleaner`. Case rules are ASCII.
 */
module TextRules {
  import opened Wrappers
  import opened Seqs
  import opened Strings
  import opened Json
  import Config

  // ---------------------------------------------------------------- capitalize_words

  /** Uppercases the first character of a word when it is lowercase. */
  function CapFirst(w: string): (r: string)
    ensures |r| == |w|
  {
    if |w| > 0 && IsLower(w[0]) then [ToUpper(w[0])] + w[1..] else w
  }

  function CapTokens(ws: seq<string>): (r: seq<string>)
    ensures |r| == |ws| && forall i :: 0 <= i < |ws| ==> r[i] == CapFirst(ws[i])
  {
    seq(|ws|, i requires 0 <= i < |ws| => CapFirst(ws[i]))
  }

  /**
   * `TextFormatter.capitalize_words` on a string: an empty string is returned as is;
   * otherwise the text is stripped, split on single spaces, each token's first character
   * is uppercased if lowercase, and the tokens are joined with single spaces.
   */
  function CapitalizeWords(text: string): string {
    if text == "" then text else Join(" ", CapTokens(Split(Strip(text), ' ')))
  }

  /**
   * The reference definition, character by character: a character is uppercased exactly
   * when it starts the text or follows a space.
   */
  function CapAfterSpace(s: string, atStart: bool): (r: string)
    ensures |r| == |s|
  {
    if s == "" then ""
    else [if atStart then ToUpper(s[0]) else s[0]] + CapAfterSpace(s[1..], s[0] == ' ')
  }

  /** The first token as it appears in the join, capitalised only when it starts a word. */
  function CapHead(ts: seq<string>, atStart: bool): seq<string>
    requires |ts| >= 1
  {
    [if atStart then CapFirst(ts[0]) else ts[0]] + CapTokens(ts[1..])
  }

  lemma {:induction false} JoinCapSplitIsCapAfterSpace(s: string, atStart: bool)
    ensures Join(" ", CapHead(Split(s, ' '), atStart)) == CapAfterSpace(s, atStart)
    decreases |s|
  {
    if s != "" {
      var rest := Split(s[1..], ' ');
      if s[0] == ' ' {
        JoinCapSplitIsCapAfterSpace(s[1..], true);
        assert Split(s, ' ') == [""] + rest;
        assert CapHead(Split(s, ' '), atStart) == [""] + CapTokens(rest);
        assert CapHead(rest, true) == CapTokens(rest) by {
          assert rest == [rest[0]] + rest[1..];
        }
      } else {
        JoinCapSplitIsCapAfterSpace(s[1..], false);
        var c := if atStart then ToUpper(s[0]) else s[0];
        assert Split(s, ' ') == [[s[0]] + rest[0]] + rest[1..];
        assert CapHead(Split(s, ' '), atStart) == [[c] + rest[0]] + CapTokens(rest[1..]) by {
          assert ([s[0]] + rest[0])[1..] == rest[0];
        }
        JoinConsChar(" ", c, rest[0], CapTokens(rest[1..]));
      }
    }
  }

  /** `capitalize_words` agrees with the character-level reference on the stripped text. */
  lemma CapitalizeWordsIsCapAfterSpace(text: string)
    requires text != ""
    ensures CapitalizeWords(text) == CapAfterSpace(Strip(text), true)
  {
    var ts := Split(Strip(text), ' ');
    JoinCapSplitIsCapAfterSpace(Strip(text), true);
    assert CapHead(ts, true) == CapTokens(ts) by {
      assert ts == [ts[0]] + ts[1..];
    }
  }

  /** Only first letters of words change, and only from lowercase to uppercase; the length is kept. */
  lemma {:induction false} CapAfterSpaceAt(s: string, atStart: bool, i: nat)
    requires i < |s|
    ensures CapAfterSpace(s, atStart)[i]
      == if (i == 0 && atStart) || (i > 0 && s[i - 1] == ' ') then ToUpper(s[i]) else s[i]
    decreases i
  {
    if i > 0 {
      CapAfterSpaceAt(s[1..], s[0] == ' ', i - 1);
      assert s[1..][i - 1] == s[i];
      if i > 1 {
        assert s[1..][i - 2] == s[i - 1];
      }
    }
  }

  lemma {:induction false} CapAfterSpaceTwice(s: string, atStart: bool)
    ensures CapAfterSpace(CapAfterSpace(s, atStart), atStart) == CapAfterSpace(s, atStart)
    decreases |s|
  {
    if s != "" {
      var r := CapAfterSpace(s, atStart);
      CapAfterSpaceTwice(s[1..], s[0] == ' ');
      assert r[1..] == CapAfterSpace(s[1..], s[0] == ' ');
      assert r[0] == ' ' <==> s[0] == ' ';
    }
  }

  /** `capitalize_words` is idempotent. */
  lemma CapitalizeWordsIdempotent(text: string)
    ensures CapitalizeWords(CapitalizeWords(text)) == CapitalizeWords(text)
  {
    if text != "" {
      var s := Strip(text);
      var r := CapitalizeWords(text);
      CapitalizeWordsIsCapAfterSpace(text);
      if r != "" {
        var k := |r| - 1;
        CapAfterSpaceAt(s, true, 0);
        CapAfterSpaceAt(s, true, k);
        assert !IsSpace(r[0]) && !IsSpace(r[k]);
        StripTrimmed(r);
        CapitalizeWordsIsCapAfterSpace(r);
        CapAfterSpaceTwice(s, true);
      }
    }
  }

  /** The tokens of the result are the tokens of the stripped input, each with its first letter capitalised. */
  lemma CapitalizeWordsTokens(text: string)
    requires text != ""
    ensures Split(CapitalizeWords(text), ' ') == CapTokens(Split(Strip(text), ' '))
  {
    var ts := Split(Strip(text), ' ');
    var cs := CapTokens(ts);
    forall i | 0 <= i < |cs| ensures ' ' !in cs[i] {
      if |ts[i]| > 0 && IsLower(ts[i][0]) {
        assert cs[i] == [ToUpper(ts[i][0])] + ts[i][1..];
      }
    }
    SplitJoin(cs, ' ');
  }

  /** Inside a word, nothing changes. */
  lemma {:induction false} CapAfterSpaceInsideWord(w: string)
    requires ' ' !in w
    ensures CapAfterSpace(w, false) == w
    decreases |w|
  {
    if w != "" {
      CapAfterSpaceInsideWord(w[1..]);
    }
  }

  lemma {:induction false} CapAfterSpaceAppend(a: string, b: string, atStart: bool)
    requires a != ""
    ensures CapAfterSpace(a + b, atStart) == CapAfterSpace(a, atStart) + CapAfterSpace(b, a[|a| - 1] == ' ')
    decreases |a|
  {
    assert (a + b)[0] == a[0] && (a + b)[1..] == a[1..] + b;
    if |a| > 1 {
      CapAfterSpaceAppend(a[1..], b, a[0] == ' ');
    } else {
      assert a[1..] == "";
      assert a[1..] + b == b;
    }
  }

  /** A single word at the start of a word has its first letter capitalised and nothing else. */
  lemma {:induction false} CapAfterSpaceWord(w: string)
    requires w != "" && ' ' !in w
    ensures CapAfterSpace(w, true) == CapFirst(w)
  {
    CapAfterSpaceInsideWord(w[1..]);
    assert w == [w[0]] + w[1..];
  }

  /** Two words: each one's first letter is capitalised and nothing else changes. */
  lemma {:induction false} CapAfterSpaceTwoWords(w1: string, w2: string)
    requires w1 != "" && w2 != "" && ' ' !in w1 && ' ' !in w2
    ensures CapAfterSpace(w1 + " " + w2, true) == CapFirst(w1) + " " + CapFirst(w2)
  {
    var t := " " + w2;
    assert w1 + " " + w2 == w1 + t;
    assert w1[|w1| - 1] != ' ';
    CapAfterSpaceAppend(w1, t, true);
    assert t[0] == ' ' && t[1..] == w2;
    assert CapAfterSpace(t, false) == " " + CapAfterSpace(w2, true);
    CapAfterSpaceWord(w1);
    CapAfterSpaceWord(w2);
  }

  /** Two words separated by one space: each is capitalised on its own. */
  lemma CapitalizeTwoWords(w1: string, w2: string)
    requires w1 != "" && w2 != "" && ' ' !in w1 && ' ' !in w2
    requires !IsSpace(w1[0]) && !IsSpace(w2[|w2| - 1])
    ensures CapitalizeWords(w1 + " " + w2) == CapFirst(w1) + " " + CapFirst(w2)
  {
    var text := w1 + " " + w2;
    assert text[0] == w1[0] && text[|text| - 1] == w2[|w2| - 1];
    StripTrimmed(text);
    CapitalizeWordsIsCapAfterSpace(text);
    CapAfterSpaceTwoWords(w1, w2);
  }

  lemma CapitalizeWordsExample(text: string)
    requires text == "hydraulic DOCK"
    ensures CapitalizeWords(text) == "Hydraulic DOCK"
  {
    var w1, w2 := "hydraulic", "DOCK";
    assert text == w1 + " " + w2;
    CapitalizeTwoWords(w1, w2);
    assert CapFirst(w1) == "Hydraulic";
  }

  // ---------------------------------------------------------------- normalize_units

  /** The table's shape: every pattern is non-empty. */
  predicate PatternsNonEmpty(table: seq<(string, string)>) {
    forall i :: 0 <= i < |table| ==> |table[i].0| > 0
  }

  /** Each replacement in turn, on the running string. */
  function ApplyReplacements(text: string, table: seq<(string, string)>): string
    requires PatternsNonEmpty(table)
    decreases |table|
  {
    if table == [] then text
    else ApplyReplacements(ReplaceAll(text, table[0].0, table[0].1), table[1..])
  }

  /** A replacement that removes a '.' and never lengthens the text. */
  predicate DropsDot(entry: (string, string)) {
    var (pat, rep) := entry;
    |pat| > 0 && '.' in pat && CountChar(rep, '.') < CountChar(pat, '.') && |rep| <= |pat|
  }

  lemma UnitTableShape()
    ensures PatternsNonEmpty(Config.UNIT_REPLACEMENTS)
    ensures forall i :: 0 <= i < |Config.UNIT_REPLACEMENTS| ==>
      var (pat, rep) := Config.UNIT_REPLACEMENTS[i];
      '.' in pat && CountChar(rep, '.') < CountChar(pat, '.') && |rep| <= |pat|
  {
    forall i | 0 <= i < |Config.UNIT_REPLACEMENTS| ensures DropsDot(Config.UNIT_REPLACEMENTS[i]) {
      if i < 10 {
        UnitEntryLow(i);
      } else if i < 20 {
        UnitEntryMid(i);
      } else {
        UnitEntryHigh(i);
      }
    }
  }

  lemma UnitEntryLow(i: nat)
    requires i < 10
    ensures DropsDot(Config.UNIT_REPLACEMENTS[i])
  {
  }

  lemma UnitEntryMid(i: nat)
    requires 10 <= i < 20
    ensures DropsDot(Config.UNIT_REPLACEMENTS[i])
  {
  }

  lemma UnitEntryHigh(i: nat)
    requires 20 <= i < 30
    ensures DropsDot(Config.UNIT_REPLACEMENTS[i])
  {
  }

  /** `TextFormatter.normalize_units` on a string. */
  function NormalizeUnits(text: string): string {
    UnitTableShape();
    if text == "" then text else ApplyReplacements(text, Config.UNIT_REPLACEMENTS)
  }

  /** `normalize_units` on any value: empty and non-string values are returned unchanged. */
  function NormalizeUnitsValue(v: Json): (r: Json)
    ensures !v.JStr? ==> r == v
    ensures v.JStr? ==> r == JStr(NormalizeUnits(v.s))
  {
    if !Truthy(v) || !v.JStr? then v else JStr(NormalizeUnits(v.s))
  }

  lemma {:induction false} ApplyReplacementsShrinks(text: string, table: seq<(string, string)>)
    requires PatternsNonEmpty(table)
    requires forall i :: 0 <= i < |table| ==>
      '.' in table[i].0 && CountChar(table[i].1, '.') < CountChar(table[i].0, '.') && |table[i].1| <= |table[i].0|
    ensures |ApplyReplacements(text, table)| <= |text|
    ensures CountChar(ApplyReplacements(text, table), '.') <= CountChar(text, '.')
    ensures CountChar(text, '.') == 0 ==> ApplyReplacements(text, table) == text
    decreases |table|
  {
    if table != [] {
      var next := ReplaceAll(text, table[0].0, table[0].1);
      ReplaceAllShortens(text, table[0].0, table[0].1);
      ReplaceAllDropsChar(text, table[0].0, table[0].1, '.');
      ApplyReplacementsShrinks(next, table[1..]);
    }
  }

  /**
   * Every pattern contains a '.', and every replacement drops one: the result is never
   * longer, never has more dots, and a text without '.' is unchanged.
   */
  lemma {:induction false} NormalizeUnitsShrinks(text: string)
    ensures |NormalizeUnits(text)| <= |text|
    ensures CountChar(NormalizeUnits(text), '.') <= CountChar(text, '.')
    ensures CountChar(text, '.') == 0 ==> NormalizeUnits(text) == text
  {
    UnitTableShape();
    if text != "" {
      ApplyReplacementsShrinks(text, Config.UNIT_REPLACEMENTS);
    }
  }

  /** Running the table in two parts is running it whole. */
  lemma {:induction false} ApplyReplacementsAppend(text: string, first: seq<(string, string)>, second: seq<(string, string)>)
    requires PatternsNonEmpty(first) && PatternsNonEmpty(second)
    ensures PatternsNonEmpty(first + second)
    ensures ApplyReplacements(text, first + second) == ApplyReplacements(ApplyReplacements(text, first), second)
    decreases |first|
  {
    if first != [] {
      assert (first + second)[1..] == first[1..] + second;
      ApplyReplacementsAppend(ReplaceAll(text, first[0].0, first[0].1), first[1..], second);
    } else {
      assert first + second == second;
    }
  }

  /**
   * A table whose every pattern is longer than the text, or as long but different,
   * leaves the text as it is.
   */
  lemma {:induction false} ApplyReplacementsUnmatched(text: string, table: seq<(string, string)>)
    requires PatternsNonEmpty(table)
    requires forall i :: 0 <= i < |table| ==>
      |table[i].0| > |text| || (|table[i].0| == |text| && table[i].0 != text)
    ensures ApplyReplacements(text, table) == text
    decreases |table|
  {
    if table != [] {
      var pat := table[0].0;
      if |pat| == |text| {
        assert text[..|pat|] == text;
        assert ReplaceAll(text[1..], pat, table[0].1) == text[1..];
      }
      assert ReplaceAll(text, pat, table[0].1) == text;
      ApplyReplacementsUnmatched(text, table[1..]);
    }
  }

  /** The unit table around its metre entry: eight three-letter patterns before it, longer ones after. */
  lemma MetreEntry()
    ensures MetreTable(Config.UNIT_REPLACEMENTS)
  {
    UnitTableShape();
  }

  /** A table whose entry 8 is the "m." rule, with three-letter patterns other than "m.." before it and longer ones after it. */
  predicate MetreTable(table: seq<(string, string)>) {
    && PatternsNonEmpty(table)
    && |table| > 8 && table[8] == ("m.", "m")
    && (forall i :: 0 <= i < 8 ==> |table[i].0| == 3 && table[i].0 != "m..")
    && (forall i :: 9 <= i < |table| ==> |table[i].0| >= 3)
  }

  /** In such a table only the "m." rule matches "m.." or "m.", and it drops the last dot of either. */
  lemma MetreRule(text: string, table: seq<(string, string)>)
    requires text == "m.." || text == "m."
    requires MetreTable(table)
    ensures text == "m.." ==> ApplyReplacements(text, table) == "m."
    ensures text == "m." ==> ApplyReplacements(text, table) == "m"
  {
    var before, after := table[..8], table[9..];
    assert forall i :: 0 <= i < |before| ==> before[i] == table[i];
    assert forall i :: 0 <= i < |after| ==> after[i] == table[i + 9];
    SplitAround(table, 8);
    assert PatternsNonEmpty([("m.", "m")]);
    ApplyReplacementsAppend(text, before, [("m.", "m")]);
    ApplyReplacementsAppend(text, before + [("m.", "m")], after);
    ApplyReplacementsUnmatched(text, before);
    var cut := ReplaceAll(text, "m.", "m");
    if text == "m.." {
      assert ReplaceAll("m..", "m.", "m") == "m.";
    } else {
      assert ReplaceAll("m.", "m.", "m") == "m";
    }
    assert ApplyReplacements(text, before + [("m.", "m")]) == cut;
    ApplyReplacementsUnmatched(cut, after);
  }

  /** `normalize_units` on "m.." or "m.": only the "m." rule fires. */
  lemma NormalizeMetre(text: string)
    requires text == "m.." || text == "m."
    ensures text == "m.." ==> NormalizeUnits(text) == "m."
    ensures text == "m." ==> NormalizeUnits(text) == "m"
  {
    MetreEntry();
    MetreRule(text, Config.UNIT_REPLACEMENTS);
  }

  /**
   * `normalize_units` is not idempotent: "m.." becomes "m." (the "m." rule matches once),
   * and a second pass turns that into "m".
   */
  lemma NormalizeUnitsNotIdempotent()
    ensures NormalizeUnits("m..") == "m."
    ensures NormalizeUnits(NormalizeUnits("m..")) == "m"
    ensures NormalizeUnits(NormalizeUnits("m..")) != NormalizeUnits("m..")
  {
    NormalizeMetre("m..");
    NormalizeMetre("m.");
  }

  // ---------------------------------------------------------------- camel_case

  /** ASCII `str.title()`: each run of letters starts uppercase and continues lowercase. */
  function Title(s: string, afterLetter: bool): (r: string)
    ensures |r| == |s|
  {
    if s == "" then ""
    else
      var c := s[0];
      var c' := if !IsLetter(c) then c else if afterLetter then ToLower(c) else ToUpper(c);
      [c'] + Title(s[1..], IsLetter(c))
  }

  /** The characters the first substitution removes. */
  const PUNCTUATION: set<char> := {'-', '(', ')', '"', '#', '/', '@', ';', ':', '<', '>', '{', '}', '`',
                                   '+', '=', '~', '|', '.', '!', '?', ','}

  predicate NotPunctuation(c: char) { c !in PUNCTUATION }

  /** Each part title-cased. */
  function TitleParts(parts: seq<string>): (r: seq<string>)
    ensures |r| == |parts| && forall i :: 0 <= i < |parts| ==> r[i] == Title(parts[i], false)
  {
    seq(|parts|, i requires 0 <= i < |parts| => Title(parts[i], false))
  }

  /** The title-cased parts, the first one lowercased, joined with nothing. */
  function CamelJoin(parts: seq<string>): string
    requires |parts| >= 1
  {
    var titled := TitleParts(parts);
    Join("", [LowerStr(titled[0])] + titled[1..])
  }

  /** `TextFormatter.camel_case`: title-case the space-separated parts, lowercase the first, join, drop non-alphanumerics. */
  function CamelCase(text: string): string {
    if text == "" then text
    else Filter(IsAlnum, Filter(NotPunctuation, CamelJoin(Split(text, ' '))))
  }

  /** The output of `camel_case` on a non-empty string holds only ASCII letters and digits. */
  lemma CamelCaseAlnum(text: string)
    requires text != ""
    ensures forall i :: 0 <= i < |CamelCase(text)| ==> IsAlnum(CamelCase(text)[i])
  {
  }

  lemma {:induction false} FilterAbsorbs(s: string)
    ensures Filter(IsAlnum, Filter(NotPunctuation, s)) == Filter(IsAlnum, s)
    decreases |s|
  {
    if s != "" {
      FilterAbsorbs(s[1..]);
      var c := s[0];
      var head := if NotPunctuation(c) then [c] else [];
      assert Filter(NotPunctuation, s) == head + Filter(NotPunctuation, s[1..]);
      FilterAppend(IsAlnum, head, Filter(NotPunctuation, s[1..]));
      if !NotPunctuation(c) {
        PunctuationNotAlnum(c);
      }
      assert Filter(IsAlnum, head) == if IsAlnum(c) then [c] else [];
    }
  }

  lemma PunctuationNotAlnum(c: char)
    requires c in PUNCTUATION
    ensures !IsAlnum(c)
  {
  }

  lemma {:induction false} LowerAppend(a: string, b: string)
    ensures LowerStr(a + b) == LowerStr(a) + LowerStr(b)
  {
  }

  lemma {:induction false} LowerFilterCommute(s: string)
    ensures LowerStr(Filter(IsAlnum, s)) == Filter(IsAlnum, LowerStr(s))
    decreases |s|
  {
    if s != "" {
      LowerFilterCommute(s[1..]);
      var head := if IsAlnum(s[0]) then [s[0]] else [];
      LowerAppend(head, Filter(IsAlnum, s[1..]));
      assert LowerStr(s)[1..] == LowerStr(s[1..]);
    }
  }

  lemma {:induction false} LowerTitle(s: string, afterLetter: bool)
    ensures LowerStr(Title(s, afterLetter)) == LowerStr(s)
    decreases |s|
  {
    if s != "" {
      LowerTitle(s[1..], IsLetter(s[0]));
      var t := Title(s, afterLetter);
      assert t == [t[0]] + Title(s[1..], IsLetter(s[0]));
      LowerAppend([t[0]], Title(s[1..], IsLetter(s[0])));
      assert s == [s[0]] + s[1..];
      LowerAppend([s[0]], s[1..]);
    }
  }

  /** Joining with a separator that holds no letter or digit keeps the same letters and digits as joining with nothing. */
  lemma {:induction false} FilterJoin(sep: string, ps: seq<string>)
    requires forall i :: 0 <= i < |sep| ==> !IsAlnum(sep[i])
    ensures Filter(IsAlnum, Join(sep, ps)) == Filter(IsAlnum, Join("", ps))
    decreases |ps|
  {
    if |ps| > 1 {
      var p0, j1, j0 := ps[0], Join(sep, ps[1..]), Join("", ps[1..]);
      FilterJoin(sep, ps[1..]);
      assert Join(sep, ps) == (p0 + sep) + j1;
      assert Join("", ps) == p0 + j0;
      FilterNone(sep);
      FilterJoinStep(sep, p0, j1, j0);
    }
  }

  lemma {:induction false} FilterJoinStep(sep: string, p0: string, j1: string, j0: string)
    requires Filter(IsAlnum, sep) == "" && Filter(IsAlnum, j1) == Filter(IsAlnum, j0)
    ensures Filter(IsAlnum, (p0 + sep) + j1) == Filter(IsAlnum, p0 + j0)
  {
    FilterAppend(IsAlnum, p0 + sep, j1);
    FilterAppend(IsAlnum, p0, sep);
    FilterAppend(IsAlnum, p0, j0);
    assert Filter(IsAlnum, p0) + "" == Filter(IsAlnum, p0);
  }

  lemma {:induction false} FilterNone(s: string)
    requires forall i :: 0 <= i < |s| ==> !IsAlnum(s[i])
    ensures Filter(IsAlnum, s) == ""
    decreases |s|
  {
    if s != "" {
      FilterNone(s[1..]);
    }
  }

  /** Lowercasing each part and joining with nothing is lowercasing the join. */
  lemma {:induction false} LowerJoin(ps: seq<string>, qs: seq<string>)
    requires |ps| == |qs| && forall i :: 0 <= i < |ps| ==> LowerStr(qs[i]) == LowerStr(ps[i])
    ensures LowerStr(Join("", qs)) == LowerStr(Join("", ps))
    decreases |ps|
  {
    if |ps| > 1 {
      LowerJoin(ps[1..], qs[1..]);
      LowerAppend(qs[0] + "", Join("", qs[1..]));
      LowerAppend(ps[0] + "", Join("", ps[1..]));
      assert qs[0] + "" == qs[0] && ps[0] + "" == ps[0];
    }
  }

  /**
   * Up to letter case, `camel_case` keeps exactly the letters and digits of its input, in
   * order: it only changes case and drops everything else (spaces, punctuation).
   */
  lemma {:induction false} CamelCaseKeepsAlnum(text: string)
    requires text != ""
    ensures LowerStr(CamelCase(text)) == Filter(IsAlnum, LowerStr(text))
  {
    var parts := Split(text, ' ');
    var joined := CamelJoin(parts);
    var j0 := Join("", parts);
    var cc := CamelCase(text);
    assert cc == Filter(IsAlnum, joined) by {
      FilterAbsorbs(joined);
    }
    assert LowerStr(cc) == Filter(IsAlnum, LowerStr(j0)) by {
      LowerFilterCommute(joined);
      LowerCamelJoin(parts);
    }
    SplitJoinedAlnum(text);
    LowerFilterCommute(text);
  }

  /** Splitting at spaces and joining with nothing keeps the letters and digits. */
  lemma {:induction false} SplitJoinedAlnum(text: string)
    ensures Filter(IsAlnum, LowerStr(Join("", Split(text, ' ')))) == LowerStr(Filter(IsAlnum, text))
  {
    var parts := Split(text, ' ');
    var j0 := Join("", parts);
    calc {
      Filter(IsAlnum, LowerStr(j0));
      { LowerFilterCommute(j0); }
      LowerStr(Filter(IsAlnum, j0));
      { assert !IsAlnum(" "[0]); FilterJoin(" ", parts); }
      LowerStr(Filter(IsAlnum, Join(" ", parts)));
      { JoinSplit(text, ' '); }
      LowerStr(Filter(IsAlnum, text));
    }
  }

  lemma {:induction false} LowerCamelJoin(parts: seq<string>)
    requires |parts| >= 1
    ensures LowerStr(CamelJoin(parts)) == LowerStr(Join("", parts))
  {
    var titled := TitleParts(parts);
    var lowered := [LowerStr(titled[0])] + titled[1..];
    LoweredParts(parts, titled, lowered);
    LowerJoin(parts, lowered);
  }

  lemma LoweredParts(parts: seq<string>, titled: seq<string>, lowered: seq<string>)
    requires |parts| >= 1 && |titled| == |parts|
    requires forall i :: 0 <= i < |parts| ==> titled[i] == Title(parts[i], false)
    requires lowered == [LowerStr(titled[0])] + titled[1..]
    ensures |lowered| == |parts| && forall i :: 0 <= i < |parts| ==> LowerStr(lowered[i]) == LowerStr(parts[i])
  {
    forall i | 0 <= i < |parts| ensures LowerStr(lowered[i]) == LowerStr(parts[i]) {
      LowerTitle(parts[i], false);
      if i == 0 {
        LowerTwice(titled[0]);
      }
    }
  }

  lemma {:induction false} LowerTwice(s: string)
    ensures LowerStr(LowerStr(s)) == LowerStr(s)
  {
  }

  // ---------------------------------------------------------------- is_valid_url

  /** Characters allowed in a URL scheme after its first letter. */
  predicate SchemeChar(c: char) {
    IsAlnum(c) || c == '+' || c == '-' || c == '.'
  }

  predicate ValidScheme(s: string) {
    |s| > 0 && IsLetter(s[0]) && forall i :: 0 <= i < |s| ==> SchemeChar(s[i])
  }

  predicate NetlocEnd(c: char) {
    c == '/' || c == '?' || c == '#'
  }

  /** `urlsplit`'s preparation: leading control characters and spaces stripped, tabs and line breaks removed. */
  function CleanUrl(u: string): string {
    Filter((c: char) => c != '\t' && c != '\r' && c != '\n', DropLeadingControls(u))
  }

  function DropLeadingControls(u: string): (r: string)
    ensures |r| <= |u| && r == u[|u| - |r|..]
  {
    if u != "" && u[0] <= ' ' then DropLeadingControls(u[1..]) else u
  }

  /** The network location: from just after "//" up to the first '/', '?' or '#'. */
  function Netloc(rest: string): (r: string)
    ensures |r| <= |rest| && r == rest[..|r|]
    ensures forall i :: 0 <= i < |r| ==> !NetlocEnd(r[i])
    ensures |r| < |rest| ==> NetlocEnd(rest[|r|])
  {
    if rest == "" || NetlocEnd(rest[0]) then "" else [rest[0]] + Netloc(rest[1..])
  }

  /** A square bracket without its partner makes `urlsplit` raise, which the validator reports as invalid. */
  predicate BracketsPaired(netloc: string) {
    ('[' in netloc) == (']' in netloc)
  }

  /** The scheme (before the first ':') and the network location (after "//") are both non-empty. */
  predicate HasSchemeAndNetloc(u: string) {
    var c := CleanUrl(u);
    match IndexOf(c, ":")
    case None => false
    case Some(i) =>
      ValidScheme(c[..i]) && StartsWith(c[i + 1..], "//")
      && var n := Netloc(c[i + 3..]); n != "" && BracketsPaired(n)
  }

  /** `URLValidator.is_valid_url`: empty and non-string values are rejected. */
  predicate IsValidUrl(v: Json) {
    Truthy(v) && v.JStr? && HasSchemeAndNetloc(v.s)
  }

  /** A scheme, "://", a non-empty host and a path, query or fragment make a valid URL. */
  lemma UrlAccepted(scheme: string, host: string, rest: string)
    requires ValidScheme(scheme)
    requires host != "" && '[' !in host && ']' !in host
    requires forall i :: 0 <= i < |host| ==> !NetlocEnd(host[i]) && host[i] > ' '
    requires rest == "" || NetlocEnd(rest[0])
    requires forall i :: 0 <= i < |rest| ==> rest[i] > ' '
    ensures IsValidUrl(JStr(scheme + "://" + host + rest))
  {
    var u := scheme + "://" + host + rest;
    var i := |scheme|;
    UrlPrintable(scheme, host, rest);
    PrintableUrlIsClean(u);
    SchemeColon(scheme, host, rest);
    UrlSlices(scheme, host, rest);
    NetlocOf(host, rest);
    SchemeAndNetlocFound(u, i, host);
  }

  lemma UrlPrintable(scheme: string, host: string, rest: string)
    requires ValidScheme(scheme)
    requires forall i :: 0 <= i < |host| ==> host[i] > ' '
    requires forall i :: 0 <= i < |rest| ==> rest[i] > ' '
    ensures var u := scheme + "://" + host + rest; forall k :: 0 <= k < |u| ==> u[k] > ' '
  {
    var u := scheme + "://" + host + rest;
    var i := |scheme|;
    forall k | 0 <= k < |u| ensures u[k] > ' ' {
      if k < i {
        assert u[k] == scheme[k];
      } else if k < i + 3 {
      } else if k < i + 3 + |host| {
        assert u[k] == host[k - i - 3];
      } else {
        assert u[k] == rest[k - i - 3 - |host|];
      }
    }
  }

  /** A valid scheme followed by ':' puts the first ':' right after the scheme. */
  lemma {:induction false} SchemeColon(scheme: string, host: string, rest: string)
    requires ValidScheme(scheme)
    ensures IndexOf(scheme + "://" + host + rest, ":") == Some(|scheme|)
  {
    var u := scheme + "://" + host + rest;
    forall j | 0 <= j < |scheme| ensures u[j] != ':' {
      assert u[j] == scheme[j] && SchemeChar(scheme[j]);
    }
    FirstChar(u, ':', |scheme|);
  }

  lemma UrlSlices(scheme: string, host: string, rest: string)
    ensures var u := scheme + "://" + host + rest;
      var i := |scheme|;
      u[..i] == scheme && StartsWith(u[i + 1..], "//") && u[i + 3..] == host + rest
  {
    var u := scheme + "://" + host + rest;
    var i := |scheme|;
    assert u == scheme + ("://" + (host + rest));
    assert u[i + 1..] == "//" + (host + rest);
  }

  lemma {:induction false} SchemeAndNetlocFound(u: string, i: nat, host: string)
    requires CleanUrl(u) == u && IndexOf(u, ":") == Some(i)
    requires ValidScheme(u[..i]) && StartsWith(u[i + 1..], "//")
    requires Netloc(u[i + 3..]) == host && host != "" && BracketsPaired(host)
    ensures IsValidUrl(JStr(u))
  {
  }

  /** A URL without spaces or control characters needs no cleaning. */
  lemma PrintableUrlIsClean(u: string)
    requires forall k :: 0 <= k < |u| ==> u[k] > ' '
    ensures CleanUrl(u) == u
  {
    FilterAll((c: char) => c != '\t' && c != '\r' && c != '\n', u);
  }

  /** The first occurrence of a single character. */
  lemma {:induction false} FirstChar(u: string, c: char, i: nat)
    requires i < |u| && u[i] == c && forall j :: 0 <= j < i ==> u[j] != c
    ensures IndexOf(u, [c]) == Some(i)
  {
    assert OccursAt(u, [c], i) by {
      assert u[i..i + 1] == [c];
    }
    forall j | 0 <= j < i ensures !OccursAt(u, [c], j) {
      assert u[j] != c;
    }
  }

  lemma {:induction false} NetlocOf(host: string, rest: string)
    requires forall i :: 0 <= i < |host| ==> !NetlocEnd(host[i])
    requires rest == "" || NetlocEnd(rest[0])
    ensures Netloc(host + rest) == host
    decreases |host|
  {
    if host == "" {
      assert host + rest == rest;
    } else {
      NetlocOf(host[1..], rest);
      assert (host + rest)[1..] == host[1..] + rest;
    }
  }

  /** A URL needs a scheme: a site-relative path is rejected. */
  lemma RelativePathRejected(path: string)
    requires |path| > 0 && path[0] == '/' && forall i :: 0 <= i < |path| ==> path[i] != ':'
    ensures !IsValidUrl(JStr(path))
  {
    var d := DropLeadingControls(path);
    var c := CleanUrl(path);
    forall j | 0 <= j < |c| ensures c[j] != ':' {
      assert c[j] in d;
    }
    forall j ensures !OccursAt(c, ":", j) {
      if 0 <= j < |c| {
        assert c[j] != ':';
      }
    }
  }

  // ---------------------------------------------------------------- clean_empty_elements

  /** An element survives when it is truthy and its `str()` is not whitespace only. */
  predicate NonBlank(item: Json) {
    Truthy(item) && Strip(Str(item)) != ""
  }

  /** `ListCleaner.clean_empty_elements`. */
  function CleanEmptyElements(v: Json): (r: Json)
    ensures !v.JArr? ==> r == v
    ensures v.JArr? ==> (r == JNull <==> Filter(NonBlank, v.items) == [])
    ensures v.JArr? && r != JNull ==> r == JArr(Filter(NonBlank, v.items))
  {
    if !v.JArr? then v
    else
      var kept := Filter(NonBlank, v.items);
      if kept == [] then JNull else JArr(kept)
  }

  /** Cleaning twice is cleaning once, and a list without blanks is returned as it is. */
  lemma CleanEmptyElementsIdempotent(v: Json)
    ensures CleanEmptyElements(CleanEmptyElements(v)) == CleanEmptyElements(v)
    ensures v.JArr? && |v.items| > 0 && (forall x :: x in v.items ==> NonBlank(x)) ==> CleanEmptyElements(v) == v
  {
    if v.JArr? {
      var kept := Filter(NonBlank, v.items);
      FilterAll(NonBlank, kept);
      if |v.items| > 0 && forall x :: x in v.items ==> NonBlank(x) {
        FilterAll(NonBlank, v.items);
      }
    }
  }
}
