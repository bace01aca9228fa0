/**
 * The media lists of a record (lib/validators.py, `MediaValidator`): images, videos and
 * attachments are swept in order; each entry is kept (reshaped), dropped with an issue
 * naming its index, or dropped silently. The three sweeps differ only in which entries they
 * keep, how they reshape them and what they say, so one loop serves all three.
 *
 * The URL check is the validator's injected `url_validator`, passed as `valid`
 * (`TextRules.IsValidUrl` in the formatter).
 */
module MediaValidator {
  import opened Wrappers
  import opened Seqs
  import opened Strings
  import opened Json
  import Assoc

  type Fields = seq<(string, Json)>

  /** Which of `validate_images`, `validate_videos` and `validate_attachments` runs. */
  datatype Kind = Images | Videos | Attachments

  /** The record field a sweep reads and replaces. */
  function FieldOf(kind: Kind): string {
    match kind
    case Images => "images"
    case Videos => "videos"
    case Attachments => "attachments"
  }

  /** `if k not in d: d[k] = ""`. */
  function WithEmpty(fs: Fields, k: string): (r: Fields)
    ensures Assoc.HasKey(r, k)
    ensures Assoc.HasKey(fs, k) ==> r == fs
    ensures forall k' :: k' != k ==> Assoc.Get(r, k') == Assoc.Get(fs, k')
  {
    if Assoc.HasKey(fs, k) then fs else Assoc.Put(fs, k, JStr(""))
  }

  /** `d[to] = d.pop(from)`: the value moves to `to` (kept in place if `to` exists, else appended). */
  function Rename(fs: Fields, from: string, to: string): (r: Fields)
    requires from != to
    ensures !Assoc.HasKey(r, from) && Assoc.Get(r, to) == Some(GetField(fs, from))
    ensures forall k :: k != from && k != to ==> Assoc.Get(r, k) == Assoc.Get(fs, k)
  {
    Assoc.Put(Assoc.Remove(fs, from), to, GetField(fs, from))
  }

  // ---------------------------------------------------------------- which entries are kept

  /** The key whose value a dictionary entry's URL is read from, if any. */
  function UrlKey(kind: Kind, fs: Fields): Option<string> {
    match kind
    case Images => if Assoc.HasKey(fs, "src") then Some("src") else None
    case Videos =>
      if Assoc.HasKey(fs, "src") then Some("src")
      else if Assoc.HasKey(fs, "videoLocation") then Some("videoLocation") else None
    case Attachments =>
      if Assoc.HasKey(fs, "attachmentLocation") then Some("attachmentLocation")
      else if Assoc.HasKey(fs, "src") then Some("src") else None
  }

  /** Whether a URL passes: attachments also require it to be truthy before asking the validator. */
  predicate UrlPasses(kind: Kind, url: Json, valid: Json -> bool) {
    (kind == Attachments ==> Truthy(url)) && valid(url)
  }

  /** Whether an entry survives the sweep. */
  predicate Accepts(kind: Kind, item: Json, valid: Json -> bool) {
    match item
    case JObj(fs) =>
      (match UrlKey(kind, fs)
       case Some(k) => UrlPasses(kind, GetField(fs, k), valid)
       case None => false)
    case JStr(_) => UrlPasses(kind, item, valid)
    case _ => false
  }

  /** Whether a dropped entry is reported: dictionaries (images: only those with a `src`) and strings. */
  predicate Reported(kind: Kind, item: Json, valid: Json -> bool) {
    !Accepts(kind, item, valid) &&
    (item.JStr? || (item.JObj? && (kind != Images || Assoc.HasKey(item.fields, "src"))))
  }

  function Noun(kind: Kind): string {
    match kind
    case Images => "Invalid image URL"
    case Videos => "Invalid video URL"
    case Attachments => "Invalid or empty attachment URL"
  }

  /** The issue for a reported entry at index `idx`. */
  function DropIssue(kind: Kind, item: Json, idx: nat, file: string, modelName: string): string {
    Noun(kind) + (if item.JStr? then " string" else "") + " removed at index " + NatToString(idx)
      + Where(file, modelName)
  }

  // ---------------------------------------------------------------- how kept entries look

  /** The generated description of the `n`-th kept attachment. */
  function PdfLabel(n: nat): string {
    "pdf " + NatToString(n)
  }

  /** The dictionary a bare image or video URL becomes. */
  function UrlEntry(url: string): Fields {
    [("src", JStr(url)), ("desc", JStr("")), ("longDesc", JStr(""))]
  }

  /** `if from in d: d[to] = d.pop(from)`. */
  function RenameIfPresent(fs: Fields, from: string, to: string): (r: Fields)
    requires from != to
    ensures !Assoc.HasKey(r, from)
    ensures Assoc.HasKey(fs, from) ==> Assoc.Get(r, to) == Some(GetField(fs, from))
    ensures !Assoc.HasKey(fs, from) ==> Assoc.Get(r, to) == Assoc.Get(fs, to)
    ensures forall k :: k != from && k != to ==> Assoc.Get(r, k) == Assoc.Get(fs, k)
  {
    if Assoc.HasKey(fs, from) then Rename(fs, from, to) else fs
  }

  /** `vid["src"] = vid.pop("videoLocation")` when the URL was read from `videoLocation`. */
  function MoveVideoLocation(fs: Fields): (r: Fields)
    requires UrlKey(Videos, fs).Some?
    ensures GetField(r, "src") == GetField(fs, UrlKey(Videos, fs).value) && Assoc.HasKey(r, "src")
  {
    if UrlKey(Videos, fs) == Some("videoLocation") then Rename(fs, "videoLocation", "src") else fs
  }

  /** `videoDescription` and `videoName` move to `desc` and `longDesc`. */
  function MoveVideoTexts(fs: Fields): (r: Fields)
    ensures !Assoc.HasKey(r, "videoDescription") && !Assoc.HasKey(r, "videoName")
    ensures Assoc.Get(r, "src") == Assoc.Get(fs, "src")
  {
    var f1 := RenameIfPresent(fs, "videoDescription", "desc");
    var f2 := RenameIfPresent(f1, "videoName", "longDesc");
    assert Assoc.Get(f2, "videoDescription") == Assoc.Get(f1, "videoDescription");
    f2
  }

  /** `desc` and `longDesc` default to `""`, in that order. */
  function WithTexts(fs: Fields): (r: Fields)
    ensures Assoc.HasKey(r, "desc") && Assoc.HasKey(r, "longDesc")
    ensures forall k :: k != "desc" && k != "longDesc" ==> Assoc.Get(r, k) == Assoc.Get(fs, k)
  {
    var f1 := WithEmpty(fs, "desc");
    var f2 := WithEmpty(f1, "longDesc");
    assert Assoc.Get(f2, "desc") == Assoc.Get(f1, "desc");
    f2
  }

  function ShapeVideo(fs: Fields): (r: Fields)
    requires UrlKey(Videos, fs).Some?
    ensures Assoc.HasKey(r, "src") && Assoc.HasKey(r, "desc") && Assoc.HasKey(r, "longDesc")
    ensures !Assoc.HasKey(r, "videoDescription") && !Assoc.HasKey(r, "videoName")
    ensures GetField(r, "src") == GetField(fs, UrlKey(Videos, fs).value)
  {
    var f1 := MoveVideoTexts(MoveVideoLocation(fs));
    WithTextsOther(f1, "src");
    WithTextsOther(f1, "videoDescription");
    WithTextsOther(f1, "videoName");
    WithTexts(f1)
  }

  /** Any key but the two text keys is looked up as before the defaults. */
  lemma WithTextsOther(fs: Fields, k: string)
    requires k != "desc" && k != "longDesc"
    ensures Assoc.Get(WithTexts(fs), k) == Assoc.Get(fs, k)
    ensures Assoc.HasKey(WithTexts(fs), k) == Assoc.HasKey(fs, k)
  {
  }

  function ShapeAttachment(fs: Fields, n: nat): (r: Fields)
    requires UrlKey(Attachments, fs).Some?
    ensures Assoc.HasKey(r, "attachmentLocation") && Assoc.HasKey(r, "attachmentName")
    ensures GetField(r, "attachmentLocation") == GetField(fs, UrlKey(Attachments, fs).value)
    ensures Truthy(GetField(fs, "attachmentDescription")) ==>
              GetField(r, "attachmentDescription") == GetField(fs, "attachmentDescription")
    ensures !Truthy(GetField(fs, "attachmentDescription")) ==>
              GetField(r, "attachmentDescription") == JStr(PdfLabel(n))
  {
    var f1 := if UrlKey(Attachments, fs) == Some("src") then Rename(fs, "src", "attachmentLocation") else fs;
    var desc := GetField(f1, "attachmentDescription");
    assert Assoc.Get(f1, "attachmentDescription") == Assoc.Get(fs, "attachmentDescription");
    var f2 := if !Assoc.HasKey(f1, "attachmentDescription") || !Truthy(desc)
              then Assoc.Put(f1, "attachmentDescription", JStr(PdfLabel(n))) else f1;
    var f3 := WithEmpty(f2, "attachmentName");
    assert Assoc.Get(f3, "attachmentLocation") == Assoc.Get(f2, "attachmentLocation") == Assoc.Get(f1, "attachmentLocation");
    assert Assoc.Get(f3, "attachmentDescription") == Assoc.Get(f2, "attachmentDescription");
    f3
  }

  /** Entries a sweep can reshape: strings and dictionaries with a URL key. */
  predicate Shapeable(kind: Kind, item: Json) {
    item.JStr? || (item.JObj? && UrlKey(kind, item.fields).Some?)
  }

  /** A kept entry after reshaping; `n` is the attachment counter (ignored for images and videos). */

  function Shape(kind: Kind, item: Json, n: nat): (r: Json)
  {
    match item
    case JStr(url) =>
      if kind == Attachments then
        JObj([("attachmentLocation", item), ("attachmentDescription", JStr(PdfLabel(n))), ("attachmentName", JStr(""))])
      else JObj(UrlEntry(url))
    case JObj(fs) =>
      if UrlKey(kind, fs).None? then item
      else
        (match kind
         case Images => JObj(WithTexts(fs))
         case Videos => JObj(ShapeVideo(fs))
         case Attachments => JObj(ShapeAttachment(fs, n)))
    case _ => item
  }

  lemma UrlEntryFacts(url: string)
    ensures var r := UrlEntry(url);
      Assoc.HasKey(r, "src") && Assoc.HasKey(r, "desc") && Assoc.HasKey(r, "longDesc")
      && GetField(r, "src") == JStr(url)
      && !Assoc.HasKey(r, "videoDescription") && !Assoc.HasKey(r, "videoName")
  {
    assert Assoc.Keys(UrlEntry(url)) == ["src", "desc", "longDesc"];
  }

  /** A kept image has a valid `src`, a `desc` and a `longDesc`. */
  lemma ImageShape(item: Json, n: nat, valid: Json -> bool)
    requires Accepts(Images, item, valid)
    ensures var r := Shape(Images, item, n).fields;
      Assoc.HasKey(r, "src") && Assoc.HasKey(r, "desc") && Assoc.HasKey(r, "longDesc")
      && valid(GetField(r, "src"))
  {
    if item.JStr? {
      UrlEntryFacts(item.s);
    } else {
      assert Assoc.Get(WithTexts(item.fields), "src") == Assoc.Get(item.fields, "src");
    }
  }

  /** A kept video has a valid `src`, a `desc` and a `longDesc`, and no old description key. */
  lemma VideoShape(item: Json, n: nat, valid: Json -> bool)
    requires Accepts(Videos, item, valid)
    ensures var r := Shape(Videos, item, n).fields;
      Assoc.HasKey(r, "src") && Assoc.HasKey(r, "desc") && Assoc.HasKey(r, "longDesc")
      && valid(GetField(r, "src"))
      && !Assoc.HasKey(r, "videoDescription") && !Assoc.HasKey(r, "videoName")
  {
    if item.JStr? {
      UrlEntryFacts(item.s);
    }
  }

  /** A kept attachment has a valid `attachmentLocation`, a truthy description and a name. */
  lemma AttachmentShape(item: Json, n: nat, valid: Json -> bool)
    requires Accepts(Attachments, item, valid)
    ensures var r := Shape(Attachments, item, n).fields;
      Assoc.HasKey(r, "attachmentName")
      && valid(GetField(r, "attachmentLocation"))
      && Truthy(GetField(r, "attachmentDescription"))
  {
    if item.JStr? {
      var r := Shape(Attachments, item, n).fields;
      assert Assoc.Keys(r) == ["attachmentLocation", "attachmentDescription", "attachmentName"];
      assert GetField(r, "attachmentLocation") == item;
      assert GetField(r, "attachmentDescription") == JStr(PdfLabel(n));
    }
  }

  // ---------------------------------------------------------------- the sweep

  /** The entries a sweep keeps, in their original order. */
  function AcceptedItems(kind: Kind, items: seq<Json>, valid: Json -> bool): (r: seq<Json>)
    ensures |r| <= |items|
    ensures forall k :: 0 <= k < |r| ==> Accepts(kind, r[k], valid)
  {
    if |items| == 0 then []
    else (if Accepts(kind, items[0], valid) then [items[0]] else []) + AcceptedItems(kind, items[1..], valid)
  }

  /** How many entries a sweep reports. */
  function CountReported(kind: Kind, items: seq<Json>, valid: Json -> bool): nat {
    if |items| == 0 then 0
    else (if Reported(kind, items[0], valid) then 1 else 0) + CountReported(kind, items[1..], valid)
  }

  /** How a kept entry is reshaped, given the attachment counter. */
  type Shaper = (Json, nat) -> Json

  /** The reshaping each validator applies to the entries it keeps. */
  function ShaperOf(kind: Kind): Shaper {
    (item: Json, n: nat) => Shape(kind, item, n)
  }

  /** What the sweep does with one entry. */
  datatype Verdict = Keep(entry: Json) | Report(issue: string) | Skip

  /** The verdict on the entry at index `idx`, with attachment counter `n`. */
  function Judge(kind: Kind, item: Json, idx: nat, n: nat, file: string, modelName: string,
                 valid: Json -> bool, shape: Shaper): (v: Verdict)
    ensures v.Keep? <==> Accepts(kind, item, valid)
    ensures v.Report? <==> Reported(kind, item, valid)
  {
    if Accepts(kind, item, valid) then Keep(shape(item, n))
    else if Reported(kind, item, valid) then Report(DropIssue(kind, item, idx, file, modelName))
    else Skip
  }

  /**
   * The `for idx, item in enumerate(...)` loop from index `idx` on, with attachment counter
   * `n`: the kept entries and the issues, both in order.
   */
  function Sweep(kind: Kind, items: seq<Json>, idx: nat, n: nat, file: string, modelName: string,
                 valid: Json -> bool, shape: Shaper): (r: (seq<Json>, seq<string>))
    decreases |items|
  {
    if |items| == 0 then ([], [])
    else
      match Judge(kind, items[0], idx, n, file, modelName, valid, shape)
      case Keep(e) =>
        var rest := Sweep(kind, items[1..], idx + 1, n + 1, file, modelName, valid, shape);
        ([e] + rest.0, rest.1)
      case Report(m) =>
        var rest := Sweep(kind, items[1..], idx + 1, n, file, modelName, valid, shape);
        (rest.0, [m] + rest.1)
      case Skip => Sweep(kind, items[1..], idx + 1, n, file, modelName, valid, shape)
  }

  /** The accepted entries reshaped in order, the first with counter `n`, the next with `n + 1`, and so on. */
  function ShapeAll(acc: seq<Json>, n: nat, shape: Shaper): (r: seq<Json>)
    ensures |r| == |acc|
  {
    if |acc| == 0 then [] else [shape(acc[0], n)] + ShapeAll(acc[1..], n + 1, shape)
  }

  /** The `k`-th reshaped entry is the `k`-th accepted one, reshaped with counter `n + k`. */
  lemma {:induction false} ShapeAllAt(acc: seq<Json>, n: nat, k: nat, shape: Shaper)
    requires k < |acc|
    ensures ShapeAll(acc, n, shape)[k] == shape(acc[k], n + k)
  {
    if k > 0 {
      ShapeAllAt(acc[1..], n + 1, k - 1, shape);
      assert acc[1..][k - 1] == acc[k];
    }
  }

  /**
   * The reference definition of the kept list: the accepted entries in their original order,
   * reshaped with consecutive counters.
   */
  lemma {:induction false} SweepKept(kind: Kind, items: seq<Json>, idx: nat, n: nat, file: string, modelName: string,
                                     valid: Json -> bool, shape: Shaper)
    ensures Sweep(kind, items, idx, n, file, modelName, valid, shape).0
         == ShapeAll(AcceptedItems(kind, items, valid), n, shape)
    decreases |items|
  {
    if |items| > 0 {
      var acc := AcceptedItems(kind, items, valid);
      var tail := AcceptedItems(kind, items[1..], valid);
      if Accepts(kind, items[0], valid) {
        assert acc == [items[0]] + tail;
        SweepKept(kind, items[1..], idx + 1, n + 1, file, modelName, valid, shape);
        assert acc[1..] == tail;
      } else {
        assert acc == tail;
        SweepKept(kind, items[1..], idx + 1, n, file, modelName, valid, shape);
      }
    }
  }

  /** One issue per reported entry. */
  lemma {:induction false} SweepIssues(kind: Kind, items: seq<Json>, idx: nat, n: nat, file: string, modelName: string,
                                       valid: Json -> bool, shape: Shaper)
    ensures |Sweep(kind, items, idx, n, file, modelName, valid, shape).1| == CountReported(kind, items, valid)
    decreases |items|
  {
    if |items| > 0 {
      if Accepts(kind, items[0], valid) {
        SweepIssues(kind, items[1..], idx + 1, n + 1, file, modelName, valid, shape);
      } else {
        SweepIssues(kind, items[1..], idx + 1, n, file, modelName, valid, shape);
      }
    }
  }

  /**
   * A kept attachment at output position `k` (counting from 0) that had no truthy description
   * is described as `pdf {k + 1}`.
   */
  lemma {:induction false} AttachmentNumbering(items: seq<Json>, file: string, modelName: string, k: nat, valid: Json -> bool)
    requires var acc := AcceptedItems(Attachments, items, valid);
      k < |acc| && !(acc[k].JObj? && Truthy(GetField(acc[k].fields, "attachmentDescription")))
    ensures var kept := Sweep(Attachments, items, 0, 1, file, modelName, valid, ShaperOf(Attachments)).0;
      k < |kept| && kept[k].JObj? && GetField(kept[k].fields, "attachmentDescription") == JStr(PdfLabel(k + 1))
  {
    var acc := AcceptedItems(Attachments, items, valid);
    var shape := ShaperOf(Attachments);
    var kept := Sweep(Attachments, items, 0, 1, file, modelName, valid, shape).0;
    assert kept == ShapeAll(acc, 1, shape) by {
      SweepKept(Attachments, items, 0, 1, file, modelName, valid, shape);
    }
    ShapeAllAt(acc, 1, k, shape);
    assert kept[k] == Shape(Attachments, acc[k], k + 1);
    assert Accepts(Attachments, acc[k], valid);
  }

  /** `validate_images` / `validate_videos` / `validate_attachments` on a whole record. */
  function ValidateMedia(kind: Kind, model: Json, file: string, modelName: string, valid: Json -> bool): (r: Result<(Json, seq<string>), PyError>)
    ensures r.Err? <==> Lookup(model, FieldOf(kind)).Err?
  {
    match Lookup(model, FieldOf(kind))
    case Err(e) => Err(e)
    case Ok(None) => Ok((model, []))
    case Ok(Some(v)) =>
      if !Truthy(v) || !v.JArr? then Ok((model, []))
      else
        var swept := Sweep(kind, v.items, 0, 1, file, modelName, valid, ShaperOf(kind));
        var after := if |swept.0| > 0 then JArr(swept.0) else JNull;
        Ok((JObj(Assoc.Put(model.fields, FieldOf(kind), after)), swept.1))
  }

  /**
   * A record whose field is a non-empty list gets that field replaced by the accepted entries
   * reshaped in order (or `None` when none is accepted), with one issue per reported entry, and
   * every other field unchanged.
   */
  lemma {:induction false} ValidateMediaFacts(kind: Kind, model: Json, file: string, modelName: string, valid: Json -> bool)
    requires model.JObj? && Assoc.HasKey(model.fields, FieldOf(kind))
    requires var v := GetField(model.fields, FieldOf(kind)); v.JArr? && |v.items| > 0
    ensures var r := ValidateMedia(kind, model, file, modelName, valid);
      var items := GetField(model.fields, FieldOf(kind)).items;
      var acc := AcceptedItems(kind, items, valid);
      && r.Ok? && r.value.0.JObj?
      && (forall k :: k != FieldOf(kind) ==> Assoc.Get(r.value.0.fields, k) == Assoc.Get(model.fields, k))
      && (|acc| == 0 ==> GetField(r.value.0.fields, FieldOf(kind)) == JNull)
      && (|acc| > 0 ==> GetField(r.value.0.fields, FieldOf(kind)) == JArr(ShapeAll(acc, 1, ShaperOf(kind))))
      && |r.value.1| == CountReported(kind, items, valid)
  {
    var items := GetField(model.fields, FieldOf(kind)).items;
    var shape := ShaperOf(kind);
    var swept := Sweep(kind, items, 0, 1, file, modelName, valid, shape);
    var after := if |swept.0| > 0 then JArr(swept.0) else JNull;
    var v := GetField(model.fields, FieldOf(kind));
    assert Lookup(model, FieldOf(kind)) == Ok(Some(v));
    assert Truthy(v) && v == JArr(items);
    assert ValidateMedia(kind, model, file, modelName, valid) == Ok((JObj(Assoc.Put(model.fields, FieldOf(kind), after)), swept.1));
    assert swept.0 == ShapeAll(AcceptedItems(kind, items, valid), 1, shape) by {
      SweepKept(kind, items, 0, 1, file, modelName, valid, shape);
    }
    assert |swept.1| == CountReported(kind, items, valid) by {
      SweepIssues(kind, items, 0, 1, file, modelName, valid, shape);
    }
  }

  /** A record without the field, or whose field is falsy or not a list, is returned as it is. */
  lemma ValidateMediaSkips(kind: Kind, model: Json, file: string, modelName: string, valid: Json -> bool)
    requires Lookup(model, FieldOf(kind)).Ok?
    requires !(model.JObj? && Assoc.HasKey(model.fields, FieldOf(kind))
               && GetField(model.fields, FieldOf(kind)).JArr? && |GetField(model.fields, FieldOf(kind)).items| > 0)
    ensures ValidateMedia(kind, model, file, modelName, valid) == Ok((model, []))
  {
    var found := Lookup(model, FieldOf(kind));
    if found.value.Some? {
      var v := found.value.value;
      assert model.JObj? && GetField(model.fields, FieldOf(kind)) == v;
      assert !v.JArr? || !Truthy(v);
    }
  }

  /**
   * One step of the sweep at index `idx`: what the entry adds to the kept list and to the
   * issues, followed by the sweep of the rest.
   */
  lemma SweepStep(kind: Kind, items: seq<Json>, idx: nat, n: nat, file: string, modelName: string,
                  valid: Json -> bool, shape: Shaper)
    requires idx < |items|
    ensures var v := Judge(kind, items[idx], idx, n, file, modelName, valid, shape);
      var added := if v.Keep? then [v.entry] else [];
      var here := Sweep(kind, items[idx..], idx, n, file, modelName, valid, shape);
      var rest := Sweep(kind, items[idx + 1..], idx + 1, n + |added|, file, modelName, valid, shape);
      && here.0 == added + rest.0
      && here.1 == (if v.Report? then [v.issue] else []) + rest.1
  {
    assert items[idx..][1..] == items[idx + 1..];
    assert items[idx..][0] == items[idx];
  }

  /** The loop invariant of `SweepLoop` is kept by one step. */
  lemma SweepAdvance(kind: Kind, items: seq<Json>, idx: nat, n: nat, file: string, modelName: string,
                     valid: Json -> bool, shape: Shaper, kept: seq<Json>, issues: seq<string>)
    requires idx < |items|
    ensures var v := Judge(kind, items[idx], idx, n, file, modelName, valid, shape);
      var added := if v.Keep? then [v.entry] else [];
      var reported := if v.Report? then [v.issue] else [];
      var here := Sweep(kind, items[idx..], idx, n, file, modelName, valid, shape);
      var rest := Sweep(kind, items[idx + 1..], idx + 1, n + |added|, file, modelName, valid, shape);
      && kept + here.0 == (kept + added) + rest.0
      && issues + here.1 == (issues + reported) + rest.1
  {
    SweepStep(kind, items, idx, n, file, modelName, valid, shape);
  }

  /** The validator's loop, for any of the three lists. */
  method SweepLoop(kind: Kind, items: seq<Json>, file: string, modelName: string, valid: Json -> bool, shape: Shaper)
    returns (kept: seq<Json>, issues: seq<string>)
    ensures (kept, issues) == Sweep(kind, items, 0, 1, file, modelName, valid, shape)
  {
    kept, issues := [], [];
    var counter: nat := 1;
    var idx: nat := 0;
    ghost var all := Sweep(kind, items, 0, 1, file, modelName, valid, shape);
    assert items[0..] == items;
    assert kept + all.0 == all.0 && issues + all.1 == all.1;
    while idx < |items|
      invariant idx <= |items|
      invariant var rest := Sweep(kind, items[idx..], idx, counter, file, modelName, valid, shape);
        kept + rest.0 == all.0 && issues + rest.1 == all.1
    {
      var v := Judge(kind, items[idx], idx, counter, file, modelName, valid, shape);
      SweepAdvance(kind, items, idx, counter, file, modelName, valid, shape, kept, issues);
      var added := if v.Keep? then [v.entry] else [];
      kept := kept + added;
      issues := issues + if v.Report? then [v.issue] else [];
      counter := counter + |added|;
      idx := idx + 1;
    }
    assert kept + [] == kept && issues + [] == issues;
  }

  /** The three validators, each reading and replacing its list field. */
  method Validate(kind: Kind, model: Json, file: string, modelName: string, valid: Json -> bool)
    returns (r: Result<(Json, seq<string>), PyError>)
    ensures r == ValidateMedia(kind, model, file, modelName, valid)
  {
    var found := Lookup(model, FieldOf(kind));
    if found.Err? {
      return Err(found.error);
    }
    if found.value.None? || !Truthy(found.value.value) || !found.value.value.JArr? {
      return Ok((model, []));
    }
    var kept, issues := SweepLoop(kind, found.value.value.items, file, modelName, valid, ShaperOf(kind));
    var after := if |kept| > 0 then JArr(kept) else JNull;
    r := Ok((JObj(Assoc.Put(model.fields, FieldOf(kind), after)), issues));
  }
}
