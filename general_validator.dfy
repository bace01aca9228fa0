/**
 * The `general` section of a record (lib/validators.py, `GeneralSectionValidator`):
 * required fields are injected, text fields formatted, and `year`, `msrp` and `countries`
 * coerced. Each step returns the updated dictionary and the issues it records; the record
 * comes from `json.load`, so updating a value is the same as Python's update in place.
 *
 * `modelName` is the text `str(model_name)` that every issue message ends with.
 */
module GeneralValidator {
  import opened Wrappers
  import opened Seqs
  import opened Strings
  import opened Json
  import opened PyNumbers
  import Assoc
  import Config
  import TextRules

  type Fields = seq<(string, Json)>

  const ARROW: string := " \U{2192} "

  // ---------------------------------------------------------------- required fields

  /** The value a missing required field is created with. */
  function Default(field: string): Json {
    if field == "msrp" then JInt(0) else JNull
  }

  function MissingFieldIssue(field: string, file: string, modelName: string): string {
    "Missing required field '" + field + "' in general section - " + file + " - " + modelName
  }

  /** The loop over the required fields still to visit: inject each missing one, with an issue. */
  function InjectFields(fs: Fields, fields: seq<string>, file: string, modelName: string): (r: (Fields, seq<string>))
    decreases |fields|
  {
    if |fields| == 0 then (fs, [])
    else if Assoc.HasKey(fs, fields[0]) then InjectFields(fs, fields[1..], file, modelName)
    else
      var rest := InjectFields(Assoc.Put(fs, fields[0], Default(fields[0])), fields[1..], file, modelName);
      (rest.0, [MissingFieldIssue(fields[0], file, modelName)] + rest.1)
  }

  /**
   * After the loop every listed field is present: a field that was present keeps its value,
   * a missing one holds its default, and every other field is unchanged.
   */
  lemma {:induction false} InjectFieldsValues(fs: Fields, fields: seq<string>, file: string, modelName: string)
    ensures var r := InjectFields(fs, fields, file, modelName).0;
      && (forall f :: f in fields ==> Assoc.HasKey(r, f))
      && (forall k :: Assoc.HasKey(fs, k) ==> Assoc.Get(r, k) == Assoc.Get(fs, k))
      && (forall f :: f in fields && !Assoc.HasKey(fs, f) ==> Assoc.Get(r, f) == Some(Default(f)))
      && (forall k :: k !in fields ==> Assoc.Get(r, k) == Assoc.Get(fs, k))
    decreases |fields|
  {
    if |fields| > 0 {
      var f := fields[0];
      if Assoc.HasKey(fs, f) {
        InjectFieldsValues(fs, fields[1..], file, modelName);
      } else {
        InjectFieldsValues(Assoc.Put(fs, f, Default(f)), fields[1..], file, modelName);
      }
    }
  }

  /** One issue per missing field, when no field is listed twice. */
  lemma {:induction false} InjectFieldsIssues(fs: Fields, fields: seq<string>, file: string, modelName: string)
    requires NoDup(fields)
    ensures |InjectFields(fs, fields, file, modelName).1| == |Filter(f => !Assoc.HasKey(fs, f), fields)|
    decreases |fields|
  {
    if |fields| > 0 {
      var f := fields[0];
      assert forall x :: x in fields[1..] ==> x != f;
      if Assoc.HasKey(fs, f) {
        InjectFieldsIssues(fs, fields[1..], file, modelName);
      } else {
        var fs' := Assoc.Put(fs, f, Default(f));
        InjectFieldsIssues(fs', fields[1..], file, modelName);
        FilterCongruent(x => !Assoc.HasKey(fs, x), x => !Assoc.HasKey(fs', x), fields[1..]);
      }
    }
  }

  /** Injection never lists a key twice. */
  lemma {:induction false} InjectFieldsDistinct(fs: Fields, fields: seq<string>, file: string, modelName: string)
    requires Assoc.DistinctKeys(fs)
    ensures Assoc.DistinctKeys(InjectFields(fs, fields, file, modelName).0)
    decreases |fields|
  {
    if |fields| > 0 {
      var f := fields[0];
      if Assoc.HasKey(fs, f) {
        InjectFieldsDistinct(fs, fields[1..], file, modelName);
      } else {
        Assoc.PutDistinct(fs, f, Default(f));
        InjectFieldsDistinct(Assoc.Put(fs, f, Default(f)), fields[1..], file, modelName);
      }
    }
  }

  /** `validate_and_format`'s loop over the required fields (`REQUIRED_GENERAL_FIELDS`). */
  method EnsureRequiredFields(general: Fields, fields: seq<string>, file: string, modelName: string)
    returns (fs: Fields, issues: seq<string>)
    ensures (fs, issues) == InjectFields(general, fields, file, modelName)
  {
    fs := general;
    issues := [];
    var i := 0;
    ghost var goal := InjectFields(general, fields, file, modelName);
    assert fields[0..] == fields;
    assert issues + goal.1 == goal.1;
    while i < |fields|
      invariant 0 <= i <= |fields|
      invariant var r := InjectFields(fs, fields[i..], file, modelName);
        (r.0, issues + r.1) == goal
    {
      var field := fields[i];
      InjectFieldsAt(fs, fields, i, file, modelName);
      if !Assoc.HasKey(fs, field) {
        var fs' := Assoc.Put(fs, field, Default(field));
        var issue := MissingFieldIssue(field, file, modelName);
        AppendAssoc(issues, [issue], InjectFields(fs', fields[i + 1..], file, modelName).1);
        issues := issues + [issue];
        fs := fs';
      }
      i := i + 1;
    }
    assert issues + [] == issues;
  }

  /** One turn of the loop, at position `i` of the field list. */
  lemma InjectFieldsAt(fs: Fields, fields: seq<string>, i: nat, file: string, modelName: string)
    requires i < |fields|
    ensures var f := fields[i];
      InjectFields(fs, fields[i..], file, modelName)
        == if Assoc.HasKey(fs, f) then InjectFields(fs, fields[i + 1..], file, modelName)
           else var rest := InjectFields(Assoc.Put(fs, f, Default(f)), fields[i + 1..], file, modelName);
             (rest.0, [MissingFieldIssue(f, file, modelName)] + rest.1)
  {
    assert fields[i..][0] == fields[i] && fields[i..][1..] == fields[i + 1..];
  }

  // ---------------------------------------------------------------- text fields

  const CAPITALIZED_FIELDS: seq<string> := ["manufacturer", "category", "subcategory"]

  function FormattedIssue(field: string, before: Json, after: string, file: string, modelName: string): string {
    "Formatted " + field + ": '" + Str(before) + "'" + ARROW + "'" + after + "'" + Where(file, modelName)
  }

  /** One field of the `manufacturer`/`category`/`subcategory` loop. */
  function CapitalizeField(fs: Fields, field: string, file: string, modelName: string): (r: (Fields, seq<string>))
    ensures var before := GetField(fs, field);
      && (Truthy(before) ==> GetField(r.0, field) == JStr(TextRules.CapitalizeWords(Str(before))))
      && (!Truthy(before) ==> r.0 == fs)
      && Assoc.Keys(r.0) == Assoc.Keys(fs)
      && (forall k :: k != field ==> Assoc.Get(r.0, k) == Assoc.Get(fs, k))
      && (|r.1| == 1 <==> GetField(r.0, field) != before) && |r.1| <= 1
  {
    var before := GetField(fs, field);
    if !Truthy(before) then (fs, [])
    else
      var after := TextRules.CapitalizeWords(Str(before));
      (Assoc.Put(fs, field, JStr(after)), if before != JStr(after) then [FormattedIssue(field, before, after, file, modelName)] else [])
  }

  /** The loop over the fields still to visit. */
  function CapitalizeFields(fs: Fields, fields: seq<string>, file: string, modelName: string): (r: (Fields, seq<string>))
    ensures Assoc.Keys(r.0) == Assoc.Keys(fs)
    ensures forall k :: k !in fields ==> Assoc.Get(r.0, k) == Assoc.Get(fs, k)
    ensures |r.1| <= |fields|
    decreases |fields|
  {
    if |fields| == 0 then (fs, [])
    else
      var first := CapitalizeField(fs, fields[0], file, modelName);
      var rest := CapitalizeFields(first.0, fields[1..], file, modelName);
      (rest.0, first.1 + rest.1)
  }

  /** The `model` field: looked up by its text in the cache of resolved names, or kept as that text. */
  function FormatModelField(fs: Fields, cache: seq<(string, string)>, file: string, modelName: string): (r: (Fields, seq<string>))
    ensures var before := GetField(fs, "model");
      && (Truthy(before) ==> GetField(r.0, "model") == JStr(Assoc.GetOr(cache, Str(before), Str(before))))
      && (!Truthy(before) ==> r.0 == fs)
      && Assoc.Keys(r.0) == Assoc.Keys(fs)
      && (forall k :: k != "model" ==> Assoc.Get(r.0, k) == Assoc.Get(fs, k))
      && (|r.1| == 1 <==> GetField(r.0, "model") != before) && |r.1| <= 1
  {
    var before := GetField(fs, "model");
    if !Truthy(before) then (fs, [])
    else
      var after := Assoc.GetOr(cache, Str(before), Str(before));
      (Assoc.Put(fs, "model", JStr(after)), if before != JStr(after) then [FormattedIssue("model", before, after, file, modelName)] else [])
  }

  /** `_format_text_fields`. */
  function TextFields(fs: Fields, cache: seq<(string, string)>, file: string, modelName: string): (r: (Fields, seq<string>))
  {
    var caps := CapitalizeFields(fs, CAPITALIZED_FIELDS, file, modelName);
    var model := FormatModelField(caps.0, cache, file, modelName);
    (model.0, caps.1 + model.1)
  }

  /**
   * Formatting only rewrites the four text fields: the key order is kept, every other field
   * keeps its value, and at most one issue is recorded per field.
   */
  lemma {:induction false} TextFieldsFacts(fs: Fields, cache: seq<(string, string)>, file: string, modelName: string)
    ensures var r := TextFields(fs, cache, file, modelName);
      && Assoc.Keys(r.0) == Assoc.Keys(fs)
      && (forall k :: k !in CAPITALIZED_FIELDS && k != "model" ==> Assoc.Get(r.0, k) == Assoc.Get(fs, k))
      && |r.1| <= 4
  {
  }

  /**
   * A field the loop visits once ends up as `capitalize_words(str(v))` when it was truthy,
   * and keeps its value otherwise.
   */
  lemma {:induction false} CapitalizeFieldsAt(fs: Fields, fields: seq<string>, file: string, modelName: string, f: string)
    requires NoDup(fields) && f in fields
    ensures var before := GetField(fs, f);
      var after := GetField(CapitalizeFields(fs, fields, file, modelName).0, f);
      && (Truthy(before) ==> after == JStr(TextRules.CapitalizeWords(Str(before))))
      && (!Truthy(before) ==> after == before)
    decreases |fields|
  {
    var first := CapitalizeField(fs, fields[0], file, modelName);
    var rest := CapitalizeFields(first.0, fields[1..], file, modelName);
    assert CapitalizeFields(fs, fields, file, modelName).0 == rest.0;
    NoDupTail(fields);
    if fields[0] == f {
      assert Assoc.Get(rest.0, f) == Assoc.Get(first.0, f);
    } else {
      CapitalizeFieldsAt(first.0, fields[1..], file, modelName, f);
      assert Assoc.Get(first.0, f) == Assoc.Get(fs, f);
    }
  }

  /**
   * After `_format_text_fields`, each of `manufacturer`, `category` and `subcategory` is
   * `capitalize_words(str(v))` when it was truthy and unchanged otherwise.
   */
  lemma CapitalizedFieldsFormatted(fs: Fields, cache: seq<(string, string)>, file: string, modelName: string, f: string)
    requires f in CAPITALIZED_FIELDS
    ensures var before := GetField(fs, f);
      var after := GetField(TextFields(fs, cache, file, modelName).0, f);
      && (Truthy(before) ==> after == JStr(TextRules.CapitalizeWords(Str(before))))
      && (!Truthy(before) ==> after == before)
  {
    assert NoDup(CAPITALIZED_FIELDS);
    CapitalizeFieldsAt(fs, CAPITALIZED_FIELDS, file, modelName, f);
    var caps := CapitalizeFields(fs, CAPITALIZED_FIELDS, file, modelName);
    assert f != "model";
    assert Assoc.Get(FormatModelField(caps.0, cache, file, modelName).0, f) == Assoc.Get(caps.0, f);
  }

  /** `_format_text_fields`' loop over `manufacturer`, `category` and `subcategory`, then `model`. */
  method FormatTextFields(general: Fields, cache: seq<(string, string)>, file: string, modelName: string)
    returns (fs: Fields, issues: seq<string>)
    ensures (fs, issues) == TextFields(general, cache, file, modelName)
  {
    fs, issues := CapitalizeLoop(general, CAPITALIZED_FIELDS, file, modelName);
    var model := FormatModelField(fs, cache, file, modelName);
    fs, issues := model.0, issues + model.1;
  }

  /** The `for field in [...]` loop of `_format_text_fields`. */
  method CapitalizeLoop(general: Fields, fields: seq<string>, file: string, modelName: string)
    returns (fs: Fields, issues: seq<string>)
    ensures (fs, issues) == CapitalizeFields(general, fields, file, modelName)
  {
    fs := general;
    issues := [];
    var i := 0;
    assert fields[0..] == fields;
    assert issues + CapitalizeFields(fs, fields, file, modelName).1 == CapitalizeFields(fs, fields, file, modelName).1;
    while i < |fields|
      invariant 0 <= i <= |fields|
      invariant var r := CapitalizeFields(fs, fields[i..], file, modelName);
        (r.0, issues + r.1) == CapitalizeFields(general, fields, file, modelName)
    {
      CapitalizeFieldsStep(fs, fields[i..], file, modelName, issues);
      assert fields[i..][1..] == fields[i + 1..];
      var step := CapitalizeField(fs, fields[i], file, modelName);
      fs, issues := step.0, issues + step.1;
      i := i + 1;
    }
    assert issues + [] == issues;
  }

  /** One field of the loop: its issues come after those recorded so far. */
  lemma {:induction false} CapitalizeFieldsStep(fs: Fields, fields: seq<string>, file: string, modelName: string, before: seq<string>)
    requires fields != []
    ensures var step := CapitalizeField(fs, fields[0], file, modelName);
      var whole := CapitalizeFields(fs, fields, file, modelName);
      var rest := CapitalizeFields(step.0, fields[1..], file, modelName);
      (whole.0, before + whole.1) == (rest.0, (before + step.1) + rest.1)
  {
    var step := CapitalizeField(fs, fields[0], file, modelName);
    var rest := CapitalizeFields(step.0, fields[1..], file, modelName);
    assert CapitalizeFields(fs, fields, file, modelName) == (rest.0, step.1 + rest.1);
    AppendAssoc(before, step.1, rest.1);
  }

  // ---------------------------------------------------------------- year

  function ConvertedYearIssue(y: Json, i: int, file: string, modelName: string): string {
    "Converted year to integer: " + Str(y) + ARROW + IntToString(i) + Where(file, modelName)
  }

  function InvalidYearIssue(y: Json, file: string, modelName: string): string {
    "Invalid year value '" + Str(y) + "'" + Where(file, modelName) + ", setting to None"
  }

  /** `_validate_year`: a truthy `year` that is not an `int` becomes `int(year)`, or `None` with an issue. */
  function ValidateYear(fs: Fields, file: string, modelName: string): (r: (Fields, seq<string>))
    ensures var y := GetField(fs, "year");
      && (!Truthy(y) || IsInt(y) ==> r == (fs, []))
      && (Truthy(y) && !IsInt(y) ==> |r.1| == 1 && Assoc.HasKey(r.0, "year"))
      && var y' := GetField(r.0, "year"); IsInt(y') || !Truthy(y')
    ensures var y := GetField(fs, "year");
      Truthy(y) && !IsInt(y) && PyInt(y).Ok? ==>
        r == (Assoc.Put(fs, "year", JInt(PyInt(y).value)), [ConvertedYearIssue(y, PyInt(y).value, file, modelName)])
    ensures var y := GetField(fs, "year");
      Truthy(y) && !IsInt(y) && PyInt(y).Err? ==>
        r == (Assoc.Put(fs, "year", JNull), [InvalidYearIssue(y, file, modelName)])
    ensures Assoc.Keys(r.0) == Assoc.Keys(fs)
    ensures forall k :: k != "year" ==> Assoc.Get(r.0, k) == Assoc.Get(fs, k)
  {
    var y := GetField(fs, "year");
    if !Truthy(y) || IsInt(y) then (fs, [])
    else
      match PyInt(y)
      case Ok(i) =>
        (Assoc.Put(fs, "year", JInt(i)), [ConvertedYearIssue(y, i, file, modelName)])
      case Err(_) =>
        (Assoc.Put(fs, "year", JNull), [InvalidYearIssue(y, file, modelName)])
  }

  /** A year written as the text of an integer is converted to that integer, with one issue. */
  lemma YearTextConverted(fs: Fields, n: int, file: string, modelName: string)
    requires GetField(fs, "year") == JStr(IntToString(n))
    ensures ValidateYear(fs, file, modelName)
      == (Assoc.Put(fs, "year", JInt(n)), [ConvertedYearIssue(JStr(IntToString(n)), n, file, modelName)])
  {
    ParseIntOfIntToString(n);
    var y := JStr(IntToString(n));
    assert Truthy(y) && !IsInt(y) && PyInt(y) == Ok(n);
  }

  /** `int()` truncates a float year toward zero: 2020.9 becomes 2020. */
  lemma FloatYearTruncated(file: string, modelName: string)
    ensures ValidateYear([("year", JDec(20209, 1))], file, modelName).0 == [("year", JInt(2020))]
  {
    assert PyInt(JDec(20209, 1)) == Ok(2020);
  }

  /** A year written with a decimal point, such as "2020.0", is not an integer: it becomes `None`. */
  lemma YearWithPointInvalid(fs: Fields, s: string, file: string, modelName: string)
    requires GetField(fs, "year") == JStr(s) && '.' in s
    ensures ValidateYear(fs, file, modelName) == (Assoc.Put(fs, "year", JNull), [InvalidYearIssue(JStr(s), file, modelName)])
  {
    ParseIntRejectsPoint(s);
  }

  // ---------------------------------------------------------------- msrp

  function FormattedMsrpIssue(n: Json, file: string, modelName: string): string {
    "Formatted MSRP: " + Str(n) + Where(file, modelName)
  }

  function InvalidMsrpIssue(s: string, file: string, modelName: string): string {
    "Invalid MSRP value '" + s + "'" + Where(file, modelName) + ", setting to 0"
  }

  /**
   * `_validate_msrp`. A string loses its commas and surrounding whitespace: empty text becomes 0,
   * a decimal becomes an `int` when whole and a `float` otherwise (with an issue), anything else
   * 0 with an issue. `None` becomes 0. Every other value, negative numbers included, is kept.
   */
  function ValidateMsrp(fs: Fields, file: string, modelName: string): (r: (Fields, seq<string>))
    ensures Assoc.Keys(r.0) == Assoc.Keys(fs)
    ensures forall k :: k != "msrp" ==> Assoc.Get(r.0, k) == Assoc.Get(fs, k)
    ensures Assoc.HasKey(fs, "msrp") ==> var m := GetField(r.0, "msrp"); !m.JStr? && !m.JNull?
    ensures var m := GetField(fs, "msrp"); !m.JStr? && !m.JNull? ==> r == (fs, [])
    ensures |r.1| <= 1
    ensures !Assoc.HasKey(fs, "msrp") ==> r == (fs, [])
    ensures Assoc.HasKey(fs, "msrp") && GetField(fs, "msrp").JNull? ==> r == (Assoc.Put(fs, "msrp", JInt(0)), [])
    ensures GetField(fs, "msrp").JStr? ==>
      var s := GetField(fs, "msrp").s;
      var t := Strip(ReplaceAll(s, ",", ""));
      && (t == "" ==> r == (Assoc.Put(fs, "msrp", JInt(0)), []))
      && (t != "" && ParseDecimal(t).Some? ==>
            var n := WholeOrDecimal(ParseDecimal(t).value.0, ParseDecimal(t).value.1);
            r == (Assoc.Put(fs, "msrp", n), [FormattedMsrpIssue(n, file, modelName)]))
      && (t != "" && ParseDecimal(t).None? ==>
            r == (Assoc.Put(fs, "msrp", JInt(0)), [InvalidMsrpIssue(s, file, modelName)]))
  {
    if !Assoc.HasKey(fs, "msrp") then (fs, [])
    else
      match GetField(fs, "msrp")
      case JStr(s) =>
        var t := Strip(ReplaceAll(s, ",", ""));
        if t == "" then (Assoc.Put(fs, "msrp", JInt(0)), [])
        else
          (match ParseDecimal(t)
           case Some((m, e)) =>
             var n := WholeOrDecimal(m, e);
             (Assoc.Put(fs, "msrp", n), [FormattedMsrpIssue(n, file, modelName)])
           case None => (Assoc.Put(fs, "msrp", JInt(0)), [InvalidMsrpIssue(s, file, modelName)]))
      case JNull => (Assoc.Put(fs, "msrp", JInt(0)), [])
      case _ => (fs, [])
  }

  /** The text of an integer (without commas) becomes that integer, with one issue. */
  lemma MsrpTextConverted(fs: Fields, n: int, file: string, modelName: string)
    requires GetField(fs, "msrp") == JStr(IntToString(n))
    ensures ValidateMsrp(fs, file, modelName)
      == (Assoc.Put(fs, "msrp", JInt(n)), [FormattedMsrpIssue(JInt(n), file, modelName)])
  {
    IntTextCleaned(n);
    ParseDecimalOfIntToString(n);
    assert WholeOrDecimal(n, 0) == JInt(n) by {
      assert Pow10(0) == 1;
    }
  }

  /** The text of an integer has no comma and no surrounding whitespace to remove. */
  lemma IntTextCleaned(n: int)
    ensures Strip(ReplaceAll(IntToString(n), ",", "")) == IntToString(n)
  {
    var s := IntToString(n);
    assert ',' !in s by {
      assert forall i :: 1 <= i < |s| ==> IsDigit(s[i]);
    }
    CountAbsent(s, ',');
    ReplaceAllDropsChar(s, ",", "", ',');
    assert !IsSpace(s[|s| - 1]);
    StripTrimmed(s);
  }

  /** Dropping the comma of "a,b.c" leaves "ab.c". */
  lemma SeparatorDropped(a: string, b: string, c: string)
    requires AllDigits(a) && AllDigits(b) && AllDigits(c)
    ensures ReplaceAll(a + "," + b + "." + c, ",", "") == (a + b) + "." + c
  {
    var tail := b + "." + c;
    DropSoleChar(a, tail, ',');
    assert a + "," + b + "." + c == a + [','] + tail;
  }

  /** "a,b.c" without its comma and surrounding whitespace reads as the digits of `a`, `b` and `c` over `10^|c|`. */
  lemma SeparatedDecimal(a: string, b: string, c: string)
    requires |a| > 0 && AllDigits(a) && AllDigits(b) && AllDigits(c)
    ensures ParseDecimal(Strip(ReplaceAll(a + "," + b + "." + c, ",", ""))) == Some((DigitsValue(a + b + c), |c|))
  {
    SeparatorDropped(a, b, c);
    StripTrimmed((a + b) + "." + c);
    ParseDecimalOfDigits(a + b, c);
    assert (a + b) + c == a + b + c;
  }

  /**
   * Thousands separators are dropped before `float()`: "a,b.c" becomes the digits of
   * `a`, `b` and `c` over `10^|c|`, an `int` when that is whole and a `float` otherwise.
   */
  lemma MsrpSeparatorAndCents(fs: Fields, a: string, b: string, c: string, file: string, modelName: string)
    requires |a| > 0 && AllDigits(a) && AllDigits(b) && AllDigits(c)
    requires GetField(fs, "msrp") == JStr(a + "," + b + "." + c)
    ensures var n := WholeOrDecimal(DigitsValue(a + b + c), |c|);
      ValidateMsrp(fs, file, modelName) == (Assoc.Put(fs, "msrp", n), [FormattedMsrpIssue(n, file, modelName)])
  {
    SeparatedDecimal(a, b, c);
  }

  /** The digits of "12", "500" and a two-digit cents part, read together. */
  lemma TwelveThousandFiveHundred(cents: string)
    requires |cents| == 2 && AllDigits(cents)
    ensures AllDigits("12") && AllDigits("500")
    ensures DigitsValue("12" + "500" + cents) == 1250000 + DigitsValue(cents)
  {
    DigitsValueAppend("12", "500");
    DigitsValueAppend("12" + "500", cents);
    assert DigitsValue("12") == 12 && DigitsValue("500") == 500;
  }

  /** The value "12,500.50" and "12,500.00" denote once the separator is dropped. */
  lemma TwelveThousandFiveHundredValues()
    ensures AllDigits("12") && AllDigits("500") && AllDigits("50") && AllDigits("00")
    ensures WholeOrDecimal(DigitsValue("12" + "500" + "50"), |"50"|) == JDec(1250050, 2)
    ensures WholeOrDecimal(DigitsValue("12" + "500" + "00"), |"00"|) == JInt(12500)
  {
    TwelveThousandFiveHundred("50");
    TwelveThousandFiveHundred("00");
    assert DigitsValue("50") == 50 && DigitsValue("00") == 0;
    assert Pow10(2) == 100;
  }

  /** "12,500.50" becomes the float 12500.50. */
  lemma MsrpWithCents(fs: Fields, file: string, modelName: string)
    requires GetField(fs, "msrp") == JStr("12" + "," + "500" + "." + "50")
    ensures GetField(ValidateMsrp(fs, file, modelName).0, "msrp") == JDec(1250050, 2)
  {
    TwelveThousandFiveHundredValues();
    MsrpSeparatorAndCents(fs, "12", "500", "50", file, modelName);
  }

  /** "12,500.00" becomes the int 12500. */
  lemma MsrpWithZeroCents(fs: Fields, file: string, modelName: string)
    requires GetField(fs, "msrp") == JStr("12" + "," + "500" + "." + "00")
    ensures GetField(ValidateMsrp(fs, file, modelName).0, "msrp") == JInt(12500)
  {
    TwelveThousandFiveHundredValues();
    MsrpSeparatorAndCents(fs, "12", "500", "00", file, modelName);
  }

  // ---------------------------------------------------------------- countries

  /** `VALID_COUNTRIES` as JSON strings. */
  function DefaultCountries(): (r: seq<Json>)
    ensures |r| == |Config.VALID_COUNTRIES| && forall i :: 0 <= i < |r| ==> r[i] == JStr(Config.VALID_COUNTRIES[i])
  {
    seq(|Config.VALID_COUNTRIES|, i requires 0 <= i < |Config.VALID_COUNTRIES| => JStr(Config.VALID_COUNTRIES[i]))
  }

  /** `c in Config.VALID_COUNTRIES`. */
  predicate IsValidCountry(c: Json) {
    c in DefaultCountries()
  }

  predicate IsInvalidCountry(c: Json) {
    !IsValidCountry(c)
  }

  /** A non-empty list of valid country codes. */
  predicate GoodCountries(v: Json) {
    v.JArr? && |v.items| > 0 && forall i :: 0 <= i < |v.items| ==> IsValidCountry(v.items[i])
  }

  /** The default list is itself a good list. */
  lemma DefaultCountriesGood()
    ensures GoodCountries(JArr(DefaultCountries()))
  {
    assert DefaultCountries()[0] == JStr("US");
  }

  function SetToDefault(fs: Fields, why: string, file: string, modelName: string): (r: (Fields, seq<string>))
    ensures GoodCountries(GetField(r.0, "countries"))
    ensures forall k :: k != "countries" ==> Assoc.Get(r.0, k) == Assoc.Get(fs, k)
    ensures |r.1| == 1
  {
    DefaultCountriesGood();
    (Assoc.Put(fs, "countries", JArr(DefaultCountries())),
     [why + ", set to default " + Repr(JArr(DefaultCountries())) + Where(file, modelName)])
  }

  /** `_validate_countries`: afterwards `countries` is a non-empty list of valid codes. */
  function ValidateCountries(fs: Fields, file: string, modelName: string): (r: (Fields, seq<string>))
    ensures GoodCountries(GetField(r.0, "countries"))
    ensures forall k :: k != "countries" ==> Assoc.Get(r.0, k) == Assoc.Get(fs, k)
    ensures |r.1| <= 1
  {
    if !Assoc.HasKey(fs, "countries") then SetToDefault(fs, "Missing countries field", file, modelName)
    else
      var v := GetField(fs, "countries");
      if Truthy(v) && v.JArr? then
        var filtered := Filter(IsValidCountry, v.items);
        if |filtered| == 0 then SetToDefault(fs, "No valid countries found", file, modelName)
        else if filtered != v.items then
          (Assoc.Put(fs, "countries", JArr(filtered)),
           ["Removed invalid countries " + Repr(JArr(Filter(c => c !in filtered, v.items))) + Where(file, modelName)])
        else (fs, [])
      else SetToDefault(fs, "Empty or invalid countries", file, modelName)
  }

  /**
   * No issue is recorded, and nothing changes, exactly when `countries` is already a non-empty
   * list of valid codes.
   */
  lemma CountriesUntouchedIff(fs: Fields, file: string, modelName: string)
    ensures var r := ValidateCountries(fs, file, modelName);
      (r.1 == [] <==> Assoc.HasKey(fs, "countries") && GoodCountries(GetField(fs, "countries")))
      && (r.1 == [] ==> r.0 == fs)
  {
    var v := GetField(fs, "countries");
    if Assoc.HasKey(fs, "countries") && GoodCountries(v) {
      FilterAll(IsValidCountry, v.items);
    }
  }

  /** When only some entries are invalid, the issue lists exactly those, in order. */
  lemma CountriesRemovedReported(fs: Fields, file: string, modelName: string)
    requires Assoc.HasKey(fs, "countries")
    requires var v := GetField(fs, "countries"); v.JArr? && |Filter(IsValidCountry, v.items)| > 0
    ensures var v := GetField(fs, "countries"); var r := ValidateCountries(fs, file, modelName);
      !GoodCountries(v) ==>
        r.1 == ["Removed invalid countries " + Repr(JArr(Filter(IsInvalidCountry, v.items))) + Where(file, modelName)]
  {
    var v := GetField(fs, "countries");
    var filtered := Filter(IsValidCountry, v.items);
    if !GoodCountries(v) {
      assert |v.items| > 0 && Truthy(v);
      assert filtered != v.items;
      var r := ValidateCountries(fs, file, modelName);
      assert r.1 == ["Removed invalid countries " + Repr(JArr(Filter(c => c !in filtered, v.items))) + Where(file, modelName)];
      forall c | c in v.items ensures (c !in filtered) == IsInvalidCountry(c) {
        FilterKeeps(IsValidCountry, v.items, c);
      }
      FilterCongruent(c => c !in filtered, IsInvalidCountry, v.items);
    }
  }

  // ---------------------------------------------------------------- the whole section

  function MissingGeneralIssue(file: string, modelName: string): string {
    "Missing or invalid 'general' section in " + file + " - " + modelName
  }

  /** The steps after the required fields are in place: text fields, year, MSRP and countries. */
  function Coerce(fs: Fields, file: string, modelName: string, cache: seq<(string, string)>): (r: (Fields, seq<string>))
  {
    var s2 := TextFields(fs, cache, file, modelName);
    var s3 := ValidateYear(s2.0, file, modelName);
    var s4 := ValidateMsrp(s3.0, file, modelName);
    var s5 := ValidateCountries(s4.0, file, modelName);
    (s5.0, s2.1 + s3.1 + s4.1 + s5.1)
  }

  /** `validate_and_format` as a function of the section, the file, the model name and the name cache. */
  function ValidatedGeneral(general: Json, file: string, modelName: string, cache: seq<(string, string)>): (r: (Json, seq<string>))
  {
    if !Truthy(general) || !general.JObj? then (general, [MissingGeneralIssue(file, modelName)])
    else
      var s1 := InjectFields(general.fields, Config.REQUIRED_GENERAL_FIELDS, file, modelName);
      var rest := Coerce(s1.0, file, modelName, cache);
      (JObj(rest.0), s1.1 + rest.1)
  }

  /** A section whose fields are all present keeps them, with year, MSRP and countries coerced. */
  lemma CoerceFacts(fs: Fields, file: string, modelName: string, cache: seq<(string, string)>)
    requires Assoc.HasKey(fs, "msrp")
    ensures var r := Coerce(fs, file, modelName, cache).0;
      && (forall k :: Assoc.HasKey(fs, k) ==> Assoc.HasKey(r, k))
      && (IsInt(GetField(r, "year")) || !Truthy(GetField(r, "year")))
      && !GetField(r, "msrp").JStr? && !GetField(r, "msrp").JNull?
      && GoodCountries(GetField(r, "countries"))
      && (Assoc.DistinctKeys(fs) ==> Assoc.DistinctKeys(r))
  {
    CoerceKeepsKeys(fs, file, modelName, cache);
    CoerceYear(fs, file, modelName, cache);
    CoerceMsrp(fs, file, modelName, cache);
  }

  /** Coercion drops no field, and adds none twice. */
  lemma CoerceKeepsKeys(fs: Fields, file: string, modelName: string, cache: seq<(string, string)>)
    ensures var r := Coerce(fs, file, modelName, cache).0;
      && (forall k :: Assoc.HasKey(fs, k) ==> Assoc.HasKey(r, k))
      && (Assoc.DistinctKeys(fs) ==> Assoc.DistinctKeys(r))
  {
    var s2 := TextFields(fs, cache, file, modelName);
    TextFieldsFacts(fs, cache, file, modelName);
    var s4 := ValidateMsrp(ValidateYear(s2.0, file, modelName).0, file, modelName);
    YearMsrpKeepKeys(s2.0, file, modelName);
    CountriesKeepKeys(s4.0, file, modelName);
    if Assoc.DistinctKeys(fs) {
      DistinctAfterCountries(s4.0, file, modelName);
    }
  }

  /** The year and MSRP steps keep the section's keys, in order. */
  lemma YearMsrpKeepKeys(fs: Fields, file: string, modelName: string)
    ensures Assoc.Keys(ValidateMsrp(ValidateYear(fs, file, modelName).0, file, modelName).0) == Assoc.Keys(fs)
  {
  }

  /** The countries step drops no key. */
  lemma CountriesKeepKeys(fs: Fields, file: string, modelName: string)
    ensures forall k :: Assoc.HasKey(fs, k) ==> Assoc.HasKey(ValidateCountries(fs, file, modelName).0, k)
  {
    var r := ValidateCountries(fs, file, modelName).0;
    forall k | Assoc.HasKey(fs, k) ensures Assoc.HasKey(r, k) {
      assert Assoc.Get(fs, k).Some?;
    }
  }

  /** After coercion the year is an integer or falsy. */
  lemma CoerceYear(fs: Fields, file: string, modelName: string, cache: seq<(string, string)>)
    ensures var r := Coerce(fs, file, modelName, cache).0;
      IsInt(GetField(r, "year")) || !Truthy(GetField(r, "year"))
  {
    var s2 := TextFields(fs, cache, file, modelName);
    var s3 := ValidateYear(s2.0, file, modelName);
    var s4 := ValidateMsrp(s3.0, file, modelName);
    var s5 := ValidateCountries(s4.0, file, modelName);
    assert GetField(s5.0, "year") == GetField(s4.0, "year") == GetField(s3.0, "year");
  }

  /** After coercion a present MSRP is a number: neither text nor `None`. */
  lemma CoerceMsrp(fs: Fields, file: string, modelName: string, cache: seq<(string, string)>)
    requires Assoc.HasKey(fs, "msrp")
    ensures var r := Coerce(fs, file, modelName, cache).0;
      !GetField(r, "msrp").JStr? && !GetField(r, "msrp").JNull?
  {
    var s2 := TextFields(fs, cache, file, modelName);
    TextFieldsFacts(fs, cache, file, modelName);
    var s3 := ValidateYear(s2.0, file, modelName);
    var s4 := ValidateMsrp(s3.0, file, modelName);
    var s5 := ValidateCountries(s4.0, file, modelName);
    assert Assoc.HasKey(s2.0, "msrp");
    assert GetField(s5.0, "msrp") == GetField(s4.0, "msrp");
  }

  /**
   * A falsy or non-dictionary section comes back unchanged with exactly one issue. A dictionary
   * comes back as a dictionary holding every required field, every field it had, a year that
   * is an integer or falsy, a numeric (not string, not `None`) MSRP and a non-empty list of
   * valid countries, with no key twice if it had none twice.
   */
  lemma ValidatedGeneralFacts(general: Json, file: string, modelName: string, cache: seq<(string, string)>)
    ensures var r := ValidatedGeneral(general, file, modelName, cache);
      && (!Truthy(general) || !general.JObj? ==> r == (general, [MissingGeneralIssue(file, modelName)]))
      && (Truthy(general) && general.JObj? ==>
            && r.0.JObj?
            && (forall f :: f in Config.REQUIRED_GENERAL_FIELDS ==> Assoc.HasKey(r.0.fields, f))
            && (forall k :: Assoc.HasKey(general.fields, k) ==> Assoc.HasKey(r.0.fields, k))
            && (IsInt(GetField(r.0.fields, "year")) || !Truthy(GetField(r.0.fields, "year")))
            && !GetField(r.0.fields, "msrp").JStr? && !GetField(r.0.fields, "msrp").JNull?
            && GoodCountries(GetField(r.0.fields, "countries"))
            && (Assoc.DistinctKeys(general.fields) ==> Assoc.DistinctKeys(r.0.fields)))
  {
    if Truthy(general) && general.JObj? {
      var fields := Config.REQUIRED_GENERAL_FIELDS;
      var s1 := InjectFields(general.fields, fields, file, modelName).0;
      assert forall f :: f in fields ==> Assoc.HasKey(s1, f)
        by { InjectFieldsValues(general.fields, fields, file, modelName); }
      assert forall k :: Assoc.HasKey(general.fields, k) ==> Assoc.HasKey(s1, k)
        by { InjectFieldsValues(general.fields, fields, file, modelName); }
      assert Assoc.DistinctKeys(general.fields) ==> Assoc.DistinctKeys(s1) by {
        if Assoc.DistinctKeys(general.fields) {
          InjectFieldsDistinct(general.fields, fields, file, modelName);
        }
      }
      assert "msrp" in fields;
      CoerceFacts(s1, file, modelName, cache);
    }
  }

  lemma DistinctAfterCountries(fs: Fields, file: string, modelName: string)
    requires Assoc.DistinctKeys(fs)
    ensures Assoc.DistinctKeys(ValidateCountries(fs, file, modelName).0)
  {
    var r := ValidateCountries(fs, file, modelName).0;
    if r != fs {
      assert r == Assoc.Put(fs, "countries", GetField(r, "countries"));
      Assoc.PutDistinct(fs, "countries", GetField(r, "countries"));
    }
  }

  /** `validate_and_format`, step by step. */
  method ValidateAndFormat(general: Json, file: string, modelName: string, cache: seq<(string, string)>)
    returns (result: Json, issues: seq<string>)
    ensures (result, issues) == ValidatedGeneral(general, file, modelName, cache)
  {
    if !Truthy(general) || !general.JObj? {
      return general, [MissingGeneralIssue(file, modelName)];
    }
    var fs, i1 := EnsureRequiredFields(general.fields, Config.REQUIRED_GENERAL_FIELDS, file, modelName);
    var i2;
    fs, i2 := FormatTextFields(fs, cache, file, modelName);
    var s3 := ValidateYear(fs, file, modelName);
    var s4 := ValidateMsrp(s3.0, file, modelName);
    var s5 := ValidateCountries(s4.0, file, modelName);
    result := JObj(s5.0);
    issues := i1 + (i2 + s3.1 + s4.1 + s5.1);
  }
}
