/**
 * The formatter of lib/json_formatter.py: the report it fills, the name pre-batching
 * that fills the name cache through the language-model client, and the per-record
 * pipeline (general section, media, list fields, specification sections, null
 * stripping) with each record's failure isolated from the others.
 */
module JsonFormatter {
  import opened Wrappers
  import opened Seqs
  import opened Strings
  import opened Json
  import Assoc
  import Config
  import TextRules
  import GeneralValidator
  import MediaValidator
  import opened ApiManager
  import GeminiClient

  /** `issues_by_model`: model name to the issues recorded for it, in insertion order. */
  type IssueMap = seq<(Json, seq<string>)>

  /** The name cache `formatted_names_cache`: raw model name to its resolved form. */
  type NameCache = seq<(string, string)>

  // ================================================================ ModelReport

  /** The fields of a `ModelReport`, as a value. */
  datatype Report = Report(total: nat, processed: nat, failed: nat, issues: IssueMap, errors: seq<string>)

  /**
   * `add_issue` on the issue map: a name Python cannot hash raises `TypeError` before
   * anything changes; otherwise the issue is appended to the name's list, which is
   * created at the end of the map if absent, and no other name's list changes.
   */
  function WithIssue(issues: IssueMap, name: Json, issue: string): (r: Result<IssueMap, PyError>)
    ensures r.Err? <==> !Hashable(name)
    ensures r.Ok? ==> Assoc.Get(r.value, name) == Some(Assoc.GetOr(issues, name, []) + [issue])
    ensures r.Ok? ==> forall k :: k != name ==> Assoc.Get(r.value, k) == Assoc.Get(issues, k)
    ensures r.Ok? ==> Assoc.Keys(r.value) == if Assoc.HasKey(issues, name) then Assoc.Keys(issues) else Assoc.Keys(issues) + [name]
  {
    if !Hashable(name) then Err(Unhashable(name))
    else Ok(Assoc.Put(issues, name, Assoc.GetOr(issues, name, []) + [issue]))
  }

  /** The `TypeError` Python raises on using a list or dictionary as a dictionary key. */
  function Unhashable(name: Json): PyError {
    TypeError("unhashable type: '" + TypeName(name) + "'")
  }

  /** `for issue in added: report.add_issue(name, issue)`. */
  function AddIssues(issues: IssueMap, name: Json, added: seq<string>): (r: Result<IssueMap, PyError>)
    decreases |added|
  {
    if added == [] then Ok(issues)
    else
      match AddIssues(issues, name, added[..|added| - 1])
      case Err(e) => Err(e)
      case Ok(prev) => WithIssue(prev, name, added[|added| - 1])
  }

  /**
   * Adding a run of issues under one name either raises on the first of them (the name is
   * unhashable, so nothing is added) or appends them all, in order, to that name's list.
   */
  lemma {:induction false} AddIssuesFacts(issues: IssueMap, name: Json, added: seq<string>)
    ensures var r := AddIssues(issues, name, added);
      && (r.Err? <==> |added| > 0 && !Hashable(name))
      && (r.Err? ==> r.error == Unhashable(name))
      && (added == [] ==> r == Ok(issues))
      && (|added| > 0 && Hashable(name) ==>
            r == Ok(Assoc.Put(issues, name, Assoc.GetOr(issues, name, []) + added)))
  {
    if Hashable(name) {
      AddIssuesHashable(issues, name, added);
    } else {
      AddIssuesUnhashable(issues, name, added);
    }
  }

  lemma {:induction false} AddIssuesUnhashable(issues: IssueMap, name: Json, added: seq<string>)
    requires !Hashable(name)
    ensures AddIssues(issues, name, added) == if added == [] then Ok(issues) else Err(Unhashable(name))
    decreases |added|
  {
    if added != [] {
      AddIssuesUnhashable(issues, name, added[..|added| - 1]);
    }
  }

  lemma {:induction false} AddIssuesHashable(issues: IssueMap, name: Json, added: seq<string>)
    requires Hashable(name)
    ensures added == [] ==> AddIssues(issues, name, added) == Ok(issues)
    ensures added != [] ==> AddIssues(issues, name, added) == Ok(Assoc.Put(issues, name, Assoc.GetOr(issues, name, []) + added))
    decreases |added|
  {
    if added != [] {
      var n := |added| - 1;
      var front, x := added[..n], added[n];
      assert added == front + [x];
      AddIssuesHashable(issues, name, front);
      AddIssuesSnoc(issues, name, front, x);
      if front != [] {
        AppendStep(issues, name, front, x);
      }
    }
  }

  /** With an unhashable name the first `add_issue` raises: nothing was added before it. */
  lemma RaisesBeforeAdding(issues: IssueMap, name: Json, added: seq<string>, i: nat, current: IssueMap)
    requires i < |added| && !Hashable(name) && AddIssues(issues, name, added[..i]) == Ok(current)
    ensures current == issues
    ensures AddIssues(issues, name, added) == Err(Unhashable(name))
  {
    AddIssuesFacts(issues, name, added[..i]);
    AddIssuesFacts(issues, name, added);
  }

  /** One more issue at the end: the run before it, then `add_issue` for it. */
  lemma {:induction false} AddIssuesSnoc(issues: IssueMap, name: Json, front: seq<string>, x: string)
    ensures AddIssues(issues, name, front).Err? ==>
      AddIssues(issues, name, front + [x]) == Err(AddIssues(issues, name, front).error)
    ensures AddIssues(issues, name, front).Ok? ==>
      AddIssues(issues, name, front + [x]) == WithIssue(AddIssues(issues, name, front).value, name, x)
  {
    assert (front + [x])[..|front|] == front;
  }

  lemma {:induction false} AppendStep(issues: IssueMap, name: Json, front: seq<string>, x: string)
    requires Hashable(name)
    ensures var before := Assoc.GetOr(issues, name, []);
      WithIssue(Assoc.Put(issues, name, before + front), name, x) == Ok(Assoc.Put(issues, name, before + (front + [x])))
  {
    var before := Assoc.GetOr(issues, name, []);
    var got := before + front;
    var mid := Assoc.Put(issues, name, got);
    WithIssueAt(mid, name, got, x);
    Assoc.PutTwice(issues, name, got, got + [x]);
    AppendAssoc(before, front, [x]);
  }

  /** `add_issue` under a name whose list is `got`. */
  lemma {:induction false} WithIssueAt(issues: IssueMap, name: Json, got: seq<string>, x: string)
    requires Hashable(name) && Assoc.Get(issues, name) == Some(got)
    ensures WithIssue(issues, name, x) == Ok(Assoc.Put(issues, name, got + [x]))
  {
  }

  /** Every name's issue list after is its list before with issues appended: nothing is lost or reordered. */
  ghost predicate Extends(before: IssueMap, after: IssueMap) {
    forall k :: Assoc.HasKey(before, k) ==>
      Assoc.HasKey(after, k) && Assoc.GetOr(before, k, []) <= Assoc.GetOr(after, k, [])
  }

  lemma ExtendsTransitive(a: IssueMap, b: IssueMap, c: IssueMap)
    requires Extends(a, b) && Extends(b, c)
    ensures Extends(a, c)
  {
    forall k | Assoc.HasKey(a, k) ensures Assoc.HasKey(c, k) && Assoc.GetOr(a, k, []) <= Assoc.GetOr(c, k, []) {
      assert Assoc.HasKey(b, k);
    }
  }

  /** Whatever `AddIssues` returns extends the map it started from. */
  lemma {:induction false} AddIssuesExtends(issues: IssueMap, name: Json, added: seq<string>)
    requires AddIssues(issues, name, added).Ok?
    ensures Extends(issues, AddIssues(issues, name, added).value)
  {
    AddIssuesFacts(issues, name, added);
    var r := AddIssues(issues, name, added).value;
    forall k | Assoc.HasKey(issues, k) ensures Assoc.HasKey(r, k) && Assoc.GetOr(issues, k, []) <= Assoc.GetOr(r, k, []) {
      if added != [] && k == name {
        assert Assoc.GetOr(r, k, []) == Assoc.GetOr(issues, k, []) + added;
      }
    }
  }

  /** The report object: counters, the issue map and the error list, updated in place. */
  class ModelReport {
    var totalModels: nat
    var processedModels: nat
    var failedModels: nat
    var issuesByModel: IssueMap
    var errors: seq<string>

    function State(): Report
      reads this
    {
      Report(totalModels, processedModels, failedModels, issuesByModel, errors)
    }

    /** `to_dict`: the counters, the issue map and the error list as they stand; nothing changes. */
    method ToDict() returns (d: Report)
      ensures d.total == totalModels && d.processed == processedModels && d.failed == failedModels
      ensures d.issues == issuesByModel && d.errors == errors
    {
      d := State();
    }

    /** A fresh report: every counter 0, no issue and no error. */
    constructor()
      ensures State() == Report(0, 0, 0, [], [])
    {
      totalModels := 0;
      processedModels := 0;
      failedModels := 0;
      issuesByModel := [];
      errors := [];
    }

    /** `add_issue`: raises on an unhashable name; otherwise appends the issue under it. */
    method AddIssue(name: Json, issue: string) returns (r: Result<(), PyError>)
      modifies this
      ensures var w := WithIssue(old(issuesByModel), name, issue);
        && (w.Err? ==> r == Err(w.error) && State() == old(State()))
        && (w.Ok? ==> r == Ok(()) && State() == old(State()).(issues := w.value))
    {
      var w := WithIssue(issuesByModel, name, issue);
      if w.Err? {
        return Err(w.error);
      }
      issuesByModel := w.value;
      return Ok(());
    }

    /** `add_error`: the error is appended; nothing else changes. */
    method AddError(error: string)
      modifies this
      ensures State() == old(State()).(errors := old(errors) + [error])
    {
      errors := errors + [error];
    }
  }

  // ================================================================ model names

  const UNKNOWN_MODEL: Json := JStr("Unknown Model")

  /** `model["general"]` of a dictionary record, `None` when absent. */
  function GeneralOf(model: Json): Json
    requires model.JObj?
  {
    GetField(model.fields, "general")
  }

  /** The record is a dictionary whose `general` is a dictionary holding `model`. */
  predicate HasGeneralModel(model: Json) {
    model.JObj? && Assoc.HasKey(model.fields, "general")
    && GeneralOf(model).JObj? && Assoc.HasKey(GeneralOf(model).fields, "model")
  }

  /**
   * `_get_model_name`: every exception inside is swallowed, so the result is whatever
   * `model["general"]["model"]` yields when the guard and the read both succeed, and
   * "Unknown Model" otherwise.
   */
  function GetModelName(model: Json): Json {
    if !model.JObj? then UNKNOWN_MODEL
    else
      match Assoc.Get(model.fields, "general")
      case None => UNKNOWN_MODEL
      case Some(g) =>
        if PyIn(g, "model") != Ok(true) then UNKNOWN_MODEL
        else
          match PyGetItem(g, "model")
          case Ok(name) => name
          case Err(_) => UNKNOWN_MODEL
  }

  /**
   * `_get_model_name` never raises: it yields `general.model` exactly when the record is
   * a dictionary whose `general` is a dictionary holding `model`, and "Unknown Model"
   * otherwise (in particular for a record without `general`).
   */
  lemma GetModelNameFacts(model: Json)
    ensures HasGeneralModel(model) ==> GetModelName(model) == GetField(GeneralOf(model).fields, "model")
    ensures !HasGeneralModel(model) ==> GetModelName(model) == UNKNOWN_MODEL
  {
  }

  /**
   * The name `_extract_model_names` takes from one record: `None` unless the record is a
   * dictionary with `general` holding `model` whose value is a non-empty string. The
   * guard `"model" in model["general"]` raises on a `general` that is not a container, and
   * the read `model["general"]["model"]` raises on a list or string `general` that passed it.
   */
  function NameOf(model: Json): Result<Option<string>, PyError> {
    if !model.JObj? then Ok(None)
    else
      match Assoc.Get(model.fields, "general")
      case None => Ok(None)
      case Some(g) =>
        match PyIn(g, "model")
        case Err(e) => Err(e)
        case Ok(false) => Ok(None)
        case Ok(true) =>
          match PyGetItem(g, "model")
          case Err(e) => Err(e)
          case Ok(name) => if Truthy(name) && name.JStr? then Ok(Some(name.s)) else Ok(None)
  }

  /** The names of a list of records, in order; the first record that raises ends the extraction. */
  function NamesOf(models: seq<Json>): (r: Result<seq<string>, PyError>)
    decreases |models|
  {
    if models == [] then Ok([])
    else
      match NameOf(models[0])
      case Err(e) => Err(e)
      case Ok(first) =>
        match NamesOf(models[1..])
        case Err(e) => Err(e)
        case Ok(rest) => Ok((if first.Some? then [first.value] else []) + rest)
  }

  /** `_extract_model_names`: a list is read record by record, anything else as one record. */
  function ExtractModelNames(data: Json): Result<seq<string>, PyError> {
    if data.JArr? then NamesOf(data.items)
    else
      match NameOf(data)
      case Err(e) => Err(e)
      case Ok(name) => Ok(if name.Some? then [name.value] else [])
  }

  /** The records on which `_extract_model_names` raises. */
  predicate RaisesOnName(model: Json) {
    model.JObj? && Assoc.HasKey(model.fields, "general")
    && !(GeneralOf(model).JObj? || PyIn(GeneralOf(model), "model") == Ok(false))
  }

  /**
   * A record yields a name exactly when its `general` is a dictionary whose `model` is a
   * non-empty string, and raises exactly when `general` is present but is neither a
   * dictionary nor a container without the string "model".
   */
  lemma NameOfFacts(model: Json)
    ensures NameOf(model).Err? <==> RaisesOnName(model)
    ensures NameOf(model).Ok? && NameOf(model).value.Some? <==>
      HasGeneralModel(model) && GetModelName(model).JStr? && GetModelName(model).s != ""
    ensures NameOf(model).Ok? && NameOf(model).value.Some? ==> JStr(NameOf(model).value.value) == GetModelName(model)
  {
  }

  /** A record whose `general.model` is a non-empty string. */
  predicate Named(model: Json) {
    HasGeneralModel(model) && GetModelName(model).JStr? && GetModelName(model).s != ""
  }

  /** A successful extraction yields the name of each named record, in order. */
  lemma {:induction false} NamesInOrder(models: seq<Json>)
    ensures NamesOf(models).Ok? ==>
      var named := Filter(Named, models);
      |NamesOf(models).value| == |named|
      && forall i :: 0 <= i < |named| ==> JStr(NamesOf(models).value[i]) == GetModelName(named[i])
    decreases |models|
  {
    if models != [] && NamesOf(models).Ok? {
      NameOfFacts(models[0]);
      NamesInOrder(models[1..]);
      assert Filter(Named, models) == (if Named(models[0]) then [models[0]] else []) + Filter(Named, models[1..]);
    }
  }

  /**
   * The extraction over a list fails exactly when some record raises; otherwise the names
   * are the `general.model` strings of the named records, one per named record, in order.
   */
  lemma {:induction false} NamesOfFacts(models: seq<Json>)
    ensures NamesOf(models).Err? <==> exists i :: 0 <= i < |models| && RaisesOnName(models[i])
    ensures NamesOf(models).Ok? ==>
      |NamesOf(models).value| <= |models| && forall n :: n in NamesOf(models).value ==> n != ""
    ensures NamesOf(models).Ok? ==>
      var named := Filter(Named, models);
      |NamesOf(models).value| == |named|
      && forall i :: 0 <= i < |named| ==> JStr(NamesOf(models).value[i]) == GetModelName(named[i])
    decreases |models|
  {
    NamesInOrder(models);
    if models != [] {
      NameOfFacts(models[0]);
      NamesOfFacts(models[1..]);
      if exists i :: 0 <= i < |models| && RaisesOnName(models[i]) {
        var i :| 0 <= i < |models| && RaisesOnName(models[i]);
        if i > 0 {
          assert RaisesOnName(models[1..][i - 1]);
        }
      }
      if exists i :: 0 <= i < |models[1..]| && RaisesOnName(models[1..][i]) {
        var i :| 0 <= i < |models[1..]| && RaisesOnName(models[1..][i]);
        assert RaisesOnName(models[i + 1]);
      }
    }
  }

  // ================================================================ de-duplication

  /** The distinct names in order of first appearance. */
  function Unique(names: seq<string>): (r: seq<string>)
    decreases |names|
  {
    if names == [] then []
    else
      var prev := Unique(names[..|names| - 1]);
      var last := names[|names| - 1];
      if last in prev then prev else prev + [last]
  }

  /** Where a value first occurs. */
  function FirstIndex(s: seq<string>, x: string): (i: nat)
    requires x in s
    ensures i < |s| && s[i] == x && x !in s[..i]
  {
    if s[0] == x then 0 else 1 + FirstIndex(s[1..], x)
  }

  lemma {:induction false} FirstIndexExtend(s: seq<string>, y: string, x: string)
    requires x in s
    ensures x in s + [y] && FirstIndex(s + [y], x) == FirstIndex(s, x)
  {
    if s[0] != x {
      assert (s + [y])[1..] == s[1..] + [y];
      FirstIndexExtend(s[1..], y, x);
    }
  }

  /**
   * The unique list has no duplicates, holds exactly the values of the input, and lists
   * them in the order of their first appearance.
   */
  lemma {:induction false} UniqueFacts(names: seq<string>)
    ensures NoDup(Unique(names))
    ensures forall x :: x in Unique(names) <==> x in names
    ensures forall i, j :: 0 <= i < j < |Unique(names)| ==>
      FirstIndex(names, Unique(names)[i]) < FirstIndex(names, Unique(names)[j])
    decreases |names|
  {
    if names != [] {
      var n := |names| - 1;
      var front := names[..n];
      var last := names[n];
      UniqueFacts(front);
      assert names == front + [last];
      var prev := Unique(front);
      forall x | x in front ensures FirstIndex(names, x) == FirstIndex(front, x) {
        FirstIndexExtend(front, last, x);
      }
      if last !in prev {
        assert FirstIndex(names, last) == n by {
          assert last !in front;
        }
      }
    }
  }

  /** The de-duplication loop: a `seen` set and a list appended in input order. */
  method Dedup(names: seq<string>) returns (unique: seq<string>)
    ensures unique == Unique(names)
  {
    var seen: set<string> := {};
    unique := [];
    for i := 0 to |names|
      invariant unique == Unique(names[..i])
      invariant forall x :: x in seen <==> x in unique
    {
      assert names[..i + 1][..i] == names[..i];
      if names[i] !in seen {
        seen := seen + {names[i]};
        unique := unique + [names[i]];
      }
    }
    assert names[..|names|] == names;
  }

  // ================================================================ batching

  /** `[s[i:i + size] for i in range(0, len(s), size)]`. */
  function Chunks(s: seq<string>, size: nat): seq<seq<string>>
    requires size > 0
    decreases |s|
  {
    if s == [] then []
    else if |s| <= size then [s]
    else [s[..size]] + Chunks(s[size..], size)
  }

  /**
   * The chunks are non-empty, none is longer than the batch size, they concatenate back
   * to the input, and there are `ceil(n / size)` of them.
   */
  lemma {:induction false} ChunksFacts(s: seq<string>, size: nat)
    requires size > 0
    ensures var cs := Chunks(s, size);
      && (forall i :: 0 <= i < |cs| ==> 0 < |cs[i]| <= size)
      && Flatten(cs) == s
      && |cs| == (|s| + size - 1) / size
    decreases |s|
  {
    if s == [] {
      DivRange(size - 1, size, 0);
    } else if |s| <= size {
      DivRange(|s| + size - 1, size, 1);
    } else {
      ChunksFacts(s[size..], size);
      var cs := Chunks(s, size);
      assert cs[1..] == Chunks(s[size..], size);
      assert s[..size] + s[size..] == s;
      CountStep(|s|, size);
    }
  }

  /** One more full chunk is one more in `ceil(n / size)`. */
  lemma CountStep(n: nat, size: nat)
    requires 0 < size < n
    ensures (n + size - 1) / size == 1 + (n - size + size - 1) / size
  {
    var d := (n - 1) / size;
    assert n - 1 == d * size + (n - 1) % size;
    assert (d + 1) * size == d * size + size;
    assert (d + 2) * size == d * size + 2 * size;
    DivRange(n + size - 1, size, d + 1);
  }

  lemma MulMonotone(x: int, y: int, n: nat)
    requires x <= y
    ensures x * n <= y * n
  {
    assert y * n - x * n == (y - x) * n;
  }

  /** `a // size == q` exactly when `q * size <= a < (q + 1) * size`. */
  lemma DivRange(a: nat, size: nat, q: nat)
    requires size > 0 && q * size <= a < (q + 1) * size
    ensures a / size == q
  {
    var d := a / size;
    assert a == d * size + a % size;
    if d < q {
      MulMonotone(d + 1, q, size);
    } else if d > q {
      MulMonotone(q + 1, d, size);
    }
  }

  /** `dict.update(mapping)`: each pair assigned in turn. */
  function Update(cache: NameCache, mapping: seq<(string, string)>): (r: NameCache)
    decreases |mapping|
  {
    if mapping == [] then cache else Update(Assoc.Put(cache, mapping[0].0, mapping[0].1), mapping[1..])
  }

  /**
   * After an update the cache holds every key it held and every key of the mapping; a
   * key of a duplicate-free mapping takes the mapping's value, and any other key keeps
   * its old value.
   */
  lemma UpdateFacts(cache: NameCache, mapping: seq<(string, string)>)
    ensures forall k :: Assoc.HasKey(Update(cache, mapping), k) <==> Assoc.HasKey(cache, k) || Assoc.HasKey(mapping, k)
    ensures forall k :: !Assoc.HasKey(mapping, k) ==> Assoc.Get(Update(cache, mapping), k) == Assoc.Get(cache, k)
    ensures Assoc.DistinctKeys(mapping) ==>
      forall k :: Assoc.HasKey(mapping, k) ==> Assoc.Get(Update(cache, mapping), k) == Assoc.Get(mapping, k)
  {
    UpdateKeys(cache, mapping);
    UpdateKeepsOthers(cache, mapping);
    if Assoc.DistinctKeys(mapping) {
      UpdateTakesMapped(cache, mapping);
    }
  }

  /** The first pair of a mapping, and the keys of the rest. */
  lemma UpdateStep(mapping: seq<(string, string)>)
    requires mapping != []
    ensures forall k :: Assoc.HasKey(mapping, k) <==> k == mapping[0].0 || Assoc.HasKey(mapping[1..], k)
    ensures forall k :: k != mapping[0].0 ==> Assoc.Get(mapping, k) == Assoc.Get(mapping[1..], k)
  {
    assert Assoc.Keys(mapping) == [mapping[0].0] + Assoc.Keys(mapping[1..]);
  }

  /** The keys after an update: the old ones and the mapping's. */
  lemma {:induction false} UpdateKeys(cache: NameCache, mapping: seq<(string, string)>)
    ensures forall k :: Assoc.HasKey(Update(cache, mapping), k) <==> Assoc.HasKey(cache, k) || Assoc.HasKey(mapping, k)
    decreases |mapping|
  {
    if mapping != [] {
      UpdateKeys(Assoc.Put(cache, mapping[0].0, mapping[0].1), mapping[1..]);
      UpdateStep(mapping);
    }
  }

  /** A key the mapping does not hold keeps its old value. */
  lemma {:induction false} UpdateKeepsOthers(cache: NameCache, mapping: seq<(string, string)>)
    ensures forall k :: !Assoc.HasKey(mapping, k) ==> Assoc.Get(Update(cache, mapping), k) == Assoc.Get(cache, k)
    decreases |mapping|
  {
    if mapping != [] {
      UpdateKeepsOthers(Assoc.Put(cache, mapping[0].0, mapping[0].1), mapping[1..]);
      UpdateStep(mapping);
    }
  }

  /** A key of a duplicate-free mapping takes the mapping's value. */
  lemma {:induction false} UpdateTakesMapped(cache: NameCache, mapping: seq<(string, string)>)
    requires Assoc.DistinctKeys(mapping)
    ensures forall k :: Assoc.HasKey(mapping, k) ==> Assoc.Get(Update(cache, mapping), k) == Assoc.Get(mapping, k)
    decreases |mapping|
  {
    if mapping != [] {
      var (k0, v0) := mapping[0];
      var c1 := Assoc.Put(cache, k0, v0);
      var rest := mapping[1..];
      UpdateStep(mapping);
      DistinctTail(mapping);
      UpdateTakesMapped(c1, rest);
      UpdateKeepsOthers(c1, rest);
      assert Update(cache, mapping) == Update(c1, rest);
      TakesFirstOrRest(mapping, c1, Update(c1, rest));
    }
  }

  /**
   * A map that agrees with the rest of a mapping on the rest's keys, and with a map holding
   * the first pair elsewhere, agrees with the whole mapping on its keys.
   */
  lemma TakesFirstOrRest(mapping: seq<(string, string)>, c1: NameCache, after: NameCache)
    requires mapping != [] && !Assoc.HasKey(mapping[1..], mapping[0].0)
    requires Assoc.Get(c1, mapping[0].0) == Some(mapping[0].1)
    requires forall k :: Assoc.HasKey(mapping[1..], k) ==> Assoc.Get(after, k) == Assoc.Get(mapping[1..], k)
    requires forall k :: !Assoc.HasKey(mapping[1..], k) ==> Assoc.Get(after, k) == Assoc.Get(c1, k)
    ensures forall k :: Assoc.HasKey(mapping, k) ==> Assoc.Get(after, k) == Assoc.Get(mapping, k)
  {
    var (k0, v0) := mapping[0];
    UpdateStep(mapping);
    assert Assoc.Get(mapping, k0) == Some(v0) by {
      assert mapping == [(k0, v0)] + mapping[1..];
    }
  }

  /** The rest of a duplicate-free mapping is duplicate-free and lacks the first key. */
  lemma DistinctTail(mapping: seq<(string, string)>)
    requires mapping != [] && Assoc.DistinctKeys(mapping)
    ensures !Assoc.HasKey(mapping[1..], mapping[0].0) && Assoc.DistinctKeys(mapping[1..])
  {
    var rest := mapping[1..];
    assert forall i :: 0 <= i < |rest| ==> Assoc.Keys(rest)[i] == Assoc.Keys(mapping)[i + 1];
  }

  /** The batches sent to the client in turn: the caches and the manager's cursor they leave behind. */
  function RunBatches(keys: seq<string>, maxCalls: int, c: Cursor, chunks: seq<seq<string>>, instructions: string,
                      oracle: (string, string) -> GeminiClient.Reply, cache: NameCache): (r: (NameCache, Cursor))
    requires |keys| > 0 && CursorOk(c, |keys|, maxCalls)
    ensures CursorOk(r.1, |keys|, maxCalls)
    decreases |chunks|
  {
    if chunks == [] then (cache, c)
    else
      var out := GeminiClient.Batch(keys, maxCalls, c, chunks[0], instructions, oracle);
      GeminiClient.BatchFacts(keys, maxCalls, c, chunks[0], instructions, oracle);
      RunBatches(keys, maxCalls, out.cursor, chunks[1..], instructions, oracle, Update(cache, out.mapping))
  }

  /**
   * After the batches every name sent is a key of the cache, every key the cache held is
   * still there, and a key no batch sent keeps its old value.
   */
  lemma {:induction false} RunBatchesCovers(keys: seq<string>, maxCalls: int, c: Cursor, chunks: seq<seq<string>>,
                                            instructions: string, oracle: (string, string) -> GeminiClient.Reply, cache: NameCache)
    requires |keys| > 0 && CursorOk(c, |keys|, maxCalls)
    ensures var after := RunBatches(keys, maxCalls, c, chunks, instructions, oracle, cache).0;
      && (forall n :: n in Flatten(chunks) ==> Assoc.HasKey(after, n))
      && (forall k :: Assoc.HasKey(cache, k) ==> Assoc.HasKey(after, k))
      && (forall k :: k !in Flatten(chunks) ==> Assoc.Get(after, k) == Assoc.Get(cache, k))
    decreases |chunks|
  {
    if chunks != [] {
      var out := GeminiClient.Batch(keys, maxCalls, c, chunks[0], instructions, oracle);
      GeminiClient.BatchFacts(keys, maxCalls, c, chunks[0], instructions, oracle);
      var c1 := Update(cache, out.mapping);
      UpdateFacts(cache, out.mapping);
      RunBatchesCovers(keys, maxCalls, out.cursor, chunks[1..], instructions, oracle, c1);
      assert Flatten(chunks) == chunks[0] + Flatten(chunks[1..]);
    }
  }

  /** No chunk means no call: the cache and the manager are left as they were. */
  lemma {:induction false} NoNamesNoCall(keys: seq<string>, maxCalls: int, c: Cursor, instructions: string,
                      oracle: (string, string) -> GeminiClient.Reply, cache: NameCache)
    requires |keys| > 0 && CursorOk(c, |keys|, maxCalls)
    ensures Chunks([], Config.BATCH_SIZE) == []
    ensures RunBatches(keys, maxCalls, c, Chunks([], Config.BATCH_SIZE), instructions, oracle, cache) == (cache, c)
  {
  }

  /** The names of every file's data, in file order; the first file that raises ends the collection. */
  function AllNames(allData: seq<(Json, string)>): Result<seq<string>, PyError>
    decreases |allData|
  {
    if allData == [] then Ok([])
    else
      match AllNames(allData[..|allData| - 1])
      case Err(e) => Err(e)
      case Ok(prev) =>
        match ExtractModelNames(allData[|allData| - 1].0)
        case Err(e) => Err(e)
        case Ok(more) => Ok(prev + more)
  }

  /** Collecting stops at the first file that raises: a failing prefix fails the whole list the same way. */
  lemma {:induction false} AllNamesPrefixFails(allData: seq<(Json, string)>, j: nat)
    requires j <= |allData| && AllNames(allData[..j]).Err?
    ensures AllNames(allData) == AllNames(allData[..j])
    decreases |allData| - j
  {
    if j < |allData| {
      var k := j + 1;
      assert allData[..k][..j] == allData[..j];
      AllNamesPrefixFails(allData, k);
    } else {
      assert allData[..j] == allData;
    }
  }

  /** With a non-empty input the first chunk is the first `size` names (or all of them). */
  lemma {:induction false} ChunksHead(s: seq<string>, size: nat)
    requires size > 0 && s != []
    ensures var end := if size <= |s| then size else |s|;
      Chunks(s, size) == [s[..end]] + Chunks(s[end..], size)
  {
    if |s| <= size {
      assert s[|s|..] == [];
      assert s[..|s|] == s;
    }
  }

  // ================================================================ list fields

  /** The two list fields `_clean_lists` visits, in order. */
  const LIST_FIELDS: seq<string> := ["features", "options"]

  /** `Removed {count} empty {noun}(s) in {file} - {name}`. */
  function RemovedIssue(count: int, noun: string, file: string, modelName: string): string {
    "Removed " + IntToString(count) + " empty " + noun + "(s)" + Where(file, modelName)
  }
  /** The issues `_clean_lists` raises for a field: one `RemovedIssue` when the counts differ, none otherwise. */
  function RemovedIssues(original: int, count: int, noun: string, file: string, modelName: string): (r: seq<string>)
    ensures r == [] <==> original == count
    ensures r != [] ==> r == [RemovedIssue(original - count, noun, file, modelName)]
  {
    if original != count then [RemovedIssue(original - count, noun, file, modelName)] else []
  }


  /**
   * One iteration of `_clean_lists`: a present, truthy field is cleaned with
   * `clean_empty_elements`; the count before is its length if it was a list and 0
   * otherwise, the count after is `len()` of the new value when truthy and 0 otherwise
   * (so a truthy number or boolean raises), and a differing count is reported.
   */
  function CleanList(model: Json, field: string, file: string, modelName: string): Result<(Json, seq<string>), PyError> {
    match Lookup(model, field)
    case Err(e) => Err(e)
    case Ok(None) => Ok((model, []))
    case Ok(Some(v)) => CleanPresent(model, field, v, file, modelName)
  }

  /** `CleanList` once the field was found holding `v`. */
  function CleanPresent(model: Json, field: string, v: Json, file: string, modelName: string): Result<(Json, seq<string>), PyError>
    requires model.JObj?
  {
    if !Truthy(v) then Ok((model, []))
    else
      var original := if v.JArr? then |v.items| else 0;
      var cleaned := TextRules.CleanEmptyElements(v);
      var after := JObj(Assoc.Put(model.fields, field, cleaned));
      match if Truthy(cleaned) then PyLen(cleaned) else Ok(0)
      case Err(e) => Err(e)
      case Ok(count) =>
        Ok((after, RemovedIssues(original, count, Singular(field), file, modelName)))
  }

  /** `field[:-1]`: the field name without its last character. */
  function Singular(field: string): string {
    if field == "" then "" else field[..|field| - 1]
  }

  /** `_clean_lists` over the given fields, in order. */
  function CleanedLists(model: Json, fields: seq<string>, file: string, modelName: string): Result<(Json, seq<string>), PyError>
    decreases |fields|
  {
    if fields == [] then Ok((model, []))
    else
      match CleanList(model, fields[0], file, modelName)
      case Err(e) => Err(e)
      case Ok(first) =>
        match CleanedLists(first.0, fields[1..], file, modelName)
        case Err(e) => Err(e)
        case Ok(rest) => Ok((rest.0, first.1 + rest.1))
  }

  /** A field that is present is cleaned by `CleanPresent`; a missing one leaves the record as it is. */
  lemma {:induction false} CleanListFound(model: Json, field: string, file: string, modelName: string)
    requires model.JObj?
    ensures var found := Assoc.Get(model.fields, field);
      && (found.Some? ==> CleanList(model, field, file, modelName) == CleanPresent(model, field, found.value, file, modelName))
      && (found.None? ==> CleanList(model, field, file, modelName) == Ok((model, [])))
  {
  }

  /** A result with `before` put in front of its issues. */
  function After(before: seq<string>, r: Result<(Json, seq<string>), PyError>): Result<(Json, seq<string>), PyError> {
    match r
    case Err(e) => Err(e)
    case Ok(x) => Ok((x.0, before + x.1))
  }

  lemma AfterEmpty(r: Result<(Json, seq<string>), PyError>)
    ensures After([], r) == r
  {
    if r.Ok? {
      assert [] + r.value.1 == r.value.1;
    }
  }

  /** One field of `_clean_lists`: a field that raises ends the loop; otherwise its issues come first. */
  lemma {:induction false} CleanedListsStep(model: Json, fields: seq<string>, file: string, modelName: string, before: seq<string>)
    requires fields != []
    ensures var first := CleanList(model, fields[0], file, modelName);
      && (first.Err? ==> CleanedLists(model, fields, file, modelName) == Err(first.error))
      && (first.Ok? ==>
            After(before, CleanedLists(model, fields, file, modelName))
              == After(before + first.value.1, CleanedLists(first.value.0, fields[1..], file, modelName)))
  {
    var first := CleanList(model, fields[0], file, modelName);
    if first.Ok? {
      var rest := CleanedLists(first.value.0, fields[1..], file, modelName);
      if rest.Ok? {
        AppendAssoc(before, first.value.1, rest.value.1);
      }
    }
  }

  /**
   * A non-empty list field is replaced by its blank-free elements (or `None` when none is
   * left); the number of elements removed is never negative, and exactly one issue,
   * carrying that number, is raised when it is not 0.
   */
  lemma {:induction false} CleanPresentOfList(model: Json, field: string, v: Json, file: string, modelName: string)
    requires model.JObj? && v.JArr? && |v.items| > 0
    ensures |Filter(TextRules.NonBlank, v.items)| <= |v.items|
    ensures var kept := Filter(TextRules.NonBlank, v.items);
      CleanPresent(model, field, v, file, modelName)
        == Ok((JObj(Assoc.Put(model.fields, field, TextRules.CleanEmptyElements(v))),
               RemovedIssues(|v.items|, |kept|, Singular(field), file, modelName)))
    ensures var removed := |v.items| - |Filter(TextRules.NonBlank, v.items)|;
      var issues := CleanPresent(model, field, v, file, modelName).value.1;
      && (removed == 0 ==> issues == [])
      && (removed > 0 ==> issues == [RemovedIssue(removed, Singular(field), file, modelName)])
  {
    CleanedCount(v);
    CleanPresentCounted(model, field, v, file, modelName, |Filter(TextRules.NonBlank, v.items)|);
  }

  /** `CleanPresent` of a non-empty list whose cleaned value counts `n` elements. */
  lemma CleanPresentCounted(model: Json, field: string, v: Json, file: string, modelName: string, n: nat)
    requires model.JObj? && v.JArr? && |v.items| > 0
    requires var cleaned := TextRules.CleanEmptyElements(v);
      (if Truthy(cleaned) then PyLen(cleaned) else Ok(0)) == Ok(n)
    ensures CleanPresent(model, field, v, file, modelName)
      == Ok((JObj(Assoc.Put(model.fields, field, TextRules.CleanEmptyElements(v))),
             RemovedIssues(|v.items|, n, Singular(field), file, modelName)))
  {
  }

  /** The count `_clean_lists` takes after cleaning a list is the number of elements kept. */
  lemma CleanedCount(v: Json)
    requires v.JArr?
    ensures var cleaned := TextRules.CleanEmptyElements(v);
      (if Truthy(cleaned) then PyLen(cleaned) else Ok(0)) == Ok(|Filter(TextRules.NonBlank, v.items)|)
  {
    if Filter(TextRules.NonBlank, v.items) != [] {
      assert TextRules.CleanEmptyElements(v) == JArr(Filter(TextRules.NonBlank, v.items));
    }
  }

  /**
   * A non-empty string (or dictionary) field is left as it is, yet counts as 0 before and
   * as its length after, so it is reported as a negative number of removed elements.
   */
  lemma {:induction false} CleanListOfNonList(model: Json, field: string, file: string, modelName: string)
    requires model.JObj?
    requires var v := GetField(model.fields, field); (v.JStr? || v.JObj?) && Truthy(v)
    ensures var v := GetField(model.fields, field);
      var n := if v.JStr? then |v.s| else |v.fields|;
      CleanList(model, field, file, modelName)
        == Ok((JObj(Assoc.Put(model.fields, field, v)), RemovedIssues(0, n, Singular(field), file, modelName)))
    ensures var v := GetField(model.fields, field);
      var n := if v.JStr? then |v.s| else |v.fields|;
      CleanList(model, field, file, modelName).Ok?
      && CleanList(model, field, file, modelName).value.1 == [RemovedIssue(-n, Singular(field), file, modelName)]
  {
    assert Assoc.HasKey(model.fields, field);
  }

  /** A truthy number or boolean in a list field makes `len()` raise `TypeError`. */
  lemma CleanListOfScalarRaises(model: Json, field: string, file: string, modelName: string)
    requires model.JObj?
    requires var v := GetField(model.fields, field); (v.JInt? || v.JDec? || v.JBool?) && Truthy(v)
    ensures CleanList(model, field, file, modelName).Err?
    ensures CleanList(model, field, file, modelName).error.TypeError?
  {
    assert Assoc.HasKey(model.fields, field);
  }

  // ================================================================ specification sections

  /** `Normalized units in {section}.{key} in {file} - {name}`. */
  function NormalizedIssue(section: string, key: string, file: string, modelName: string): string {
    "Normalized units in " + section + "." + key + Where(file, modelName)
  }

  /** A specification entry proper: a dictionary holding both `label` and `desc`. */
  predicate Labelled(value: Json) {
    value.JObj? && Assoc.HasKey(value.fields, "label") && Assoc.HasKey(value.fields, "desc")
  }

  /** The key an entry is stored under in the rebuilt section. */
  function EntryKey(key: string, value: Json): string {
    if Labelled(value) then TextRules.CamelCase(key) else key
  }

  /**
   * One entry of a section: an entry proper whose `desc` is truthy gets `desc` replaced
   * by the unit-normalised `str()` of it, with an issue when the new value differs from
   * the old one; every entry proper is re-keyed by `camel_case`; anything else is kept as
   * it is under its own key.
   */
  function FormatEntry(section: string, key: string, value: Json, file: string, modelName: string): (r: (string, Json, seq<string>))
    ensures r.0 == EntryKey(key, value)
    ensures !Labelled(value) ==> r == (key, value, [])
    ensures Labelled(value) && !Truthy(GetField(value.fields, "desc")) ==> r == (TextRules.CamelCase(key), value, [])
  {
    if !Labelled(value) then (key, value, [])
    else
      var desc := GetField(value.fields, "desc");
      if !Truthy(desc) then (TextRules.CamelCase(key), value, [])
      else
        var normalized := JStr(TextRules.NormalizeUnits(Str(desc)));
        (TextRules.CamelCase(key), JObj(Assoc.Put(value.fields, "desc", normalized)),
         if desc != normalized then [NormalizedIssue(section, key, file, modelName)] else [])
  }

  /** The `desc` an entry proper gets: the unit-normalised text of the old one's `str()`. */
  function NormalizedDesc(value: Json): Json
    requires value.JObj?
  {
    JStr(TextRules.NormalizeUnits(Str(GetField(value.fields, "desc"))))
  }

  /**
   * The rule for an entry proper with a truthy `desc`: the entry is re-keyed by `camel_case`,
   * and `desc` becomes, in place, the unit-normalised text of its `str()`.
   */
  lemma FormatEntryNormalizes(section: string, key: string, value: Json, file: string, modelName: string)
    requires Labelled(value) && Truthy(GetField(value.fields, "desc"))
    ensures var r := FormatEntry(section, key, value, file, modelName);
      && r.0 == TextRules.CamelCase(key)
      && r.1.JObj?
      && Assoc.Keys(r.1.fields) == Assoc.Keys(value.fields)
      && Assoc.Get(r.1.fields, "desc") == Some(NormalizedDesc(value))
  {
    var fields' := Assoc.Put(value.fields, "desc", NormalizedDesc(value));
    assert FormatEntry(section, key, value, file, modelName).1 == JObj(fields');
  }

  /** The one "Normalized units" issue is raised exactly when normalising changes `desc`. */
  lemma FormatEntryReportsChange(section: string, key: string, value: Json, file: string, modelName: string)
    requires Labelled(value) && Truthy(GetField(value.fields, "desc"))
    ensures var r := FormatEntry(section, key, value, file, modelName);
      && (GetField(value.fields, "desc") != NormalizedDesc(value) ==> r.2 == [NormalizedIssue(section, key, file, modelName)])
      && (GetField(value.fields, "desc") == NormalizedDesc(value) ==> r.2 == [])
  {
  }

  /** Every field of an entry proper other than `desc` keeps its value. */
  lemma FormatEntryKeepsField(section: string, key: string, value: Json, file: string, modelName: string, field: string)
    requires Labelled(value) && field != "desc"
    ensures FormatEntry(section, key, value, file, modelName).1.JObj?
    ensures Assoc.Get(FormatEntry(section, key, value, file, modelName).1.fields, field) == Assoc.Get(value.fields, field)
  {
    if Truthy(GetField(value.fields, "desc")) {
      var fields' := Assoc.Put(value.fields, "desc", NormalizedDesc(value));
      assert FormatEntry(section, key, value, file, modelName).1.fields == fields';
    }
  }

  /**
   * A `desc` string without a '.' is left as it is and raises no issue, while a truthy
   * `desc` that is not a string is always reported, since it comes back as its `str()`.
   */
  lemma FormatEntryDesc(section: string, key: string, value: Json, file: string, modelName: string)
    requires Labelled(value)
    ensures var desc := GetField(value.fields, "desc");
      var r := FormatEntry(section, key, value, file, modelName);
      && (desc.JStr? && '.' !in desc.s ==> r.2 == [] && GetField(r.1.fields, "desc") == desc)
      && (Truthy(desc) && !desc.JStr? ==>
            r.2 == [NormalizedIssue(section, key, file, modelName)]
            && GetField(r.1.fields, "desc") == JStr(TextRules.NormalizeUnits(Str(desc))))
  {
    var desc := GetField(value.fields, "desc");
    if desc.JStr? && '.' !in desc.s {
      CountAbsent(desc.s, '.');
      TextRules.NormalizeUnitsShrinks(desc.s);
      if Truthy(desc) {
        assert Assoc.Put(value.fields, "desc", desc) == value.fields by {
          PutSame(value.fields, "desc", desc);
        }
      }
    }
  }

  /** Assigning a key the value it already holds changes nothing. */
  lemma {:induction false} PutSame(fs: seq<(string, Json)>, k: string, v: Json)
    requires Assoc.Get(fs, k) == Some(v)
    ensures Assoc.Put(fs, k, v) == fs
  {
    if fs[0].0 != k {
      PutSame(fs[1..], k, v);
      assert [fs[0]] + fs[1..] == fs;
    } else {
      assert [(k, v)] + fs[1..] == fs;
    }
  }

  /** What the loop does with one entry: its new key, its new value, its issues. */
  type EntryRule = (string, Json) -> (string, Json, seq<string>)

  /** A loop over a dictionary's entries that assigns each result into a fresh dictionary, in order. */
  function Rebuild(entries: seq<(string, Json)>, rule: EntryRule): (seq<(string, Json)>, seq<string>)
    decreases |entries|
  {
    if entries == [] then ([], [])
    else
      var n := |entries| - 1;
      var prev := Rebuild(entries[..n], rule);
      var e := rule(entries[n].0, entries[n].1);
      (Assoc.Put(prev.0, e.0, e.1), prev.1 + e.2)
  }

  /** The entry rule of one section. */
  function RuleFor(section: string, file: string, modelName: string): EntryRule {
    (key: string, value: Json) => FormatEntry(section, key, value, file, modelName)
  }

  /** The loop over one section's entries. */
  function FormatSection(section: string, entries: seq<(string, Json)>, file: string, modelName: string): (seq<(string, Json)>, seq<string>) {
    Rebuild(entries, RuleFor(section, file, modelName))
  }

  /** No later entry maps to the same new key as entry `i`. */
  predicate LastFor(entries: seq<(string, Json)>, i: nat, rule: EntryRule)
    requires i < |entries|
  {
    forall j :: i < j < |entries| ==> rule(entries[j].0, entries[j].1).0 != rule(entries[i].0, entries[i].1).0
  }

  /** The rebuilt dictionary is empty only when there was no entry. */
  lemma {:induction false} RebuildEmpty(entries: seq<(string, Json)>, rule: EntryRule)
    ensures |Rebuild(entries, rule).0| == 0 <==> |entries| == 0
  {
    if entries != [] {
      var n := |entries| - 1;
      var prev := Rebuild(entries[..n], rule).0;
      var e := rule(entries[n].0, entries[n].1);
      assert Assoc.HasKey(Assoc.Put(prev, e.0, e.1), e.0);
    }
  }

  /** The new key of every entry, in order. */
  function NewKeys(entries: seq<(string, Json)>, rule: EntryRule): (r: seq<string>)
    ensures |r| == |entries|
    ensures forall i :: 0 <= i < |entries| ==> r[i] == rule(entries[i].0, entries[i].1).0
  {
    seq(|entries|, i requires 0 <= i < |entries| => rule(entries[i].0, entries[i].1).0)
  }

  /** The rebuilt dictionary's keys are exactly the entries' new keys. */
  lemma {:induction false} RebuildKeys(entries: seq<(string, Json)>, rule: EntryRule)
    ensures forall k :: Assoc.HasKey(Rebuild(entries, rule).0, k) <==> k in NewKeys(entries, rule)
    decreases |entries|
  {
    if entries != [] {
      var n := |entries| - 1;
      var front := entries[..n];
      RebuildKeys(front, rule);
      assert NewKeys(entries, rule) == NewKeys(front, rule) + [rule(entries[n].0, entries[n].1).0];
    }
  }

  /** An entry that is last for its key in `entries` is last for it in any prefix holding it. */
  lemma LastForFront(entries: seq<(string, Json)>, rule: EntryRule, i: nat)
    requires i < |entries| - 1 && LastFor(entries, i, rule)
    ensures LastFor(entries[..|entries| - 1], i, rule)
    ensures rule(entries[|entries| - 1].0, entries[|entries| - 1].1).0 != rule(entries[i].0, entries[i].1).0
  {
    var front := entries[..|entries| - 1];
    forall j | i < j < |front|
      ensures rule(front[j].0, front[j].1).0 != rule(front[i].0, front[i].1).0
    {
      assert front[j] == entries[j];
    }
  }

  /** When keys collide the later entry wins: a key holds the value of the last entry mapped to it. */
  lemma {:induction false} RebuildLastWins(entries: seq<(string, Json)>, rule: EntryRule, i: nat)
    requires i < |entries| && LastFor(entries, i, rule)
    ensures Assoc.Get(Rebuild(entries, rule).0, rule(entries[i].0, entries[i].1).0) == Some(rule(entries[i].0, entries[i].1).1)
    decreases |entries|, 1
  {
    if i < |entries| - 1 {
      RebuildEarlierWins(entries, rule, i);
    } else {
      RebuildLastKey(entries, rule);
    }
  }

  /** An entry before the last, and last for its key: the last entry's key is another one. */
  lemma {:induction false} RebuildEarlierWins(entries: seq<(string, Json)>, rule: EntryRule, i: nat)
    requires i < |entries| - 1 && LastFor(entries, i, rule)
    ensures Assoc.Get(Rebuild(entries, rule).0, rule(entries[i].0, entries[i].1).0) == Some(rule(entries[i].0, entries[i].1).1)
    decreases |entries|, 0
  {
    var n := |entries| - 1;
    LastForFront(entries, rule, i);
    assert entries[..n][i] == entries[i];
    RebuildLastWins(entries[..n], rule, i);
    RebuildOtherKey(entries, rule, rule(entries[i].0, entries[i].1).0);
  }

  /** The last entry's key holds the last entry's value. */
  lemma RebuildLastKey(entries: seq<(string, Json)>, rule: EntryRule)
    requires entries != []
    ensures var last := rule(entries[|entries| - 1].0, entries[|entries| - 1].1);
      Assoc.Get(Rebuild(entries, rule).0, last.0) == Some(last.1)
  {
    var n := |entries| - 1;
    var last := rule(entries[n].0, entries[n].1);
    assert Rebuild(entries, rule).0 == Assoc.Put(Rebuild(entries[..n], rule).0, last.0, last.1);
  }

  /** A key other than the last entry's holds what it held before the last entry. */
  lemma RebuildOtherKey(entries: seq<(string, Json)>, rule: EntryRule, k: string)
    requires entries != [] && k != rule(entries[|entries| - 1].0, entries[|entries| - 1].1).0
    ensures Assoc.Get(Rebuild(entries, rule).0, k) == Assoc.Get(Rebuild(entries[..|entries| - 1], rule).0, k)
  {
    var n := |entries| - 1;
    var last := rule(entries[n].0, entries[n].1);
    assert Rebuild(entries, rule).0 == Assoc.Put(Rebuild(entries[..n], rule).0, last.0, last.1);
  }

  /**
   * A section's rebuilt dictionary is empty only when the section was; its keys are the
   * camel-cased keys of the entries proper and the unchanged keys of the others; and a
   * key shared by several entries holds the formatted value of the last of them.
   */
  lemma FormatSectionFacts(section: string, entries: seq<(string, Json)>, file: string, modelName: string)
    ensures var r := FormatSection(section, entries, file, modelName).0;
      && (|r| == 0 <==> |entries| == 0)
      && (forall k :: Assoc.HasKey(r, k) <==> k in NewKeys(entries, RuleFor(section, file, modelName)))
      && (forall i :: 0 <= i < |entries| && LastFor(entries, i, RuleFor(section, file, modelName)) ==>
            Assoc.Get(r, EntryKey(entries[i].0, entries[i].1)) == Some(FormatEntry(section, entries[i].0, entries[i].1, file, modelName).1))
  {
    var rule := RuleFor(section, file, modelName);
    RebuildEmpty(entries, rule);
    RebuildKeys(entries, rule);
    forall i | 0 <= i < |entries| && LastFor(entries, i, rule)
      ensures Assoc.Get(Rebuild(entries, rule).0, EntryKey(entries[i].0, entries[i].1)) == Some(FormatEntry(section, entries[i].0, entries[i].1, file, modelName).1)
    {
      RebuildLastWins(entries, rule, i);
    }
  }

  /**
   * One iteration of `_format_specifications`: a section that is absent, falsy or not a
   * dictionary is skipped; otherwise it is replaced by its rebuilt dictionary (`None` if
   * that came out empty).
   */
  function SectionStep(model: Json, section: string, found: Option<Json>, file: string, modelName: string): (Json, seq<string>)
    requires found.Some? ==> model.JObj?
  {
    if found.None? || !Truthy(found.value) || !found.value.JObj? then (model, [])
    else
      var rebuilt := FormatSection(section, found.value.fields, file, modelName);
      (JObj(Assoc.Put(model.fields, section, if |rebuilt.0| > 0 then JObj(rebuilt.0) else JNull)), rebuilt.1)
  }

  /** `_format_specifications` over the given sections, in order. */
  function FormattedSections(model: Json, sections: seq<string>, file: string, modelName: string): Result<(Json, seq<string>), PyError>
    decreases |sections|
  {
    if sections == [] then Ok((model, []))
    else
      match Lookup(model, sections[0])
      case Err(e) => Err(e)
      case Ok(found) =>
        var step := SectionStep(model, sections[0], found, file, modelName);
        match FormattedSections(step.0, sections[1..], file, modelName)
        case Err(e) => Err(e)
        case Ok(rest) => Ok((rest.0, step.1 + rest.1))
  }

  /** One section of `_format_specifications`: a section that raises ends the loop; otherwise its issues come first. */
  lemma {:induction false} FormattedSectionsStep(model: Json, sections: seq<string>, file: string, modelName: string, before: seq<string>)
    requires sections != []
    ensures var found := Lookup(model, sections[0]);
      && (found.Err? ==> FormattedSections(model, sections, file, modelName) == Err(found.error))
      && (found.Ok? ==>
            var step := SectionStep(model, sections[0], found.value, file, modelName);
            After(before, FormattedSections(model, sections, file, modelName))
              == After(before + step.1, FormattedSections(step.0, sections[1..], file, modelName)))
  {
    var found := Lookup(model, sections[0]);
    if found.Ok? {
      var step := SectionStep(model, sections[0], found.value, file, modelName);
      var rest := FormattedSections(step.0, sections[1..], file, modelName);
      if rest.Ok? {
        AppendAssoc(before, step.1, rest.value.1);
      }
    }
  }

  /** One more entry of the section loop. */
  lemma RebuildStep(entries: seq<(string, Json)>, rule: EntryRule, j: nat)
    requires j < |entries|
    ensures var prev := Rebuild(entries[..j], rule);
      var e := rule(entries[j].0, entries[j].1);
      Rebuild(entries[..j + 1], rule) == (Assoc.Put(prev.0, e.0, e.1), prev.1 + e.2)
  {
    assert entries[..j + 1][..j] == entries[..j];
  }

  /**
   * Only a truthy dictionary section is touched; it is replaced by its rebuilt
   * dictionary, which is never `None` (a truthy section has an entry), and every other
   * key of the record is left alone.
   */
  lemma {:induction false} SectionStepFacts(model: Json, section: string, file: string, modelName: string)
    requires model.JObj?
    ensures var v := GetField(model.fields, section);
      var step := SectionStep(model, section, Assoc.Get(model.fields, section), file, modelName);
      && (!(Truthy(v) && v.JObj?) ==> step == (model, []))
      && (Truthy(v) && v.JObj? ==>
            && step.0.JObj?
            && Assoc.Get(step.0.fields, section) == Some(JObj(FormatSection(section, v.fields, file, modelName).0))
            && forall k :: k != section ==> Assoc.Get(step.0.fields, k) == Assoc.Get(model.fields, k))
  {
    var v := GetField(model.fields, section);
    if Truthy(v) && v.JObj? {
      SectionStepTouched(model, section, file, modelName);
      var fields' := Assoc.Put(model.fields, section, JObj(FormatSection(section, v.fields, file, modelName).0));
      assert SectionStep(model, section, Assoc.Get(model.fields, section), file, modelName).0 == JObj(fields');
    } else {
      SectionStepUntouched(model, section, file, modelName);
    }
  }

  /** Any other section value leaves the record as it is, with no issue. */
  lemma SectionStepUntouched(model: Json, section: string, file: string, modelName: string)
    requires model.JObj?
    requires var v := GetField(model.fields, section); !(Truthy(v) && v.JObj?)
    ensures SectionStep(model, section, Assoc.Get(model.fields, section), file, modelName) == (model, [])
  {
    var found := Assoc.Get(model.fields, section);
    assert found.None? || found == Some(GetField(model.fields, section));
  }

  /** A truthy dictionary section: replaced by its rebuilt dictionary, which has an entry. */
  lemma SectionStepTouched(model: Json, section: string, file: string, modelName: string)
    requires model.JObj?
    requires var v := GetField(model.fields, section); Truthy(v) && v.JObj?
    ensures var v := GetField(model.fields, section);
      var rebuilt := FormatSection(section, v.fields, file, modelName);
      SectionStep(model, section, Assoc.Get(model.fields, section), file, modelName)
        == (JObj(Assoc.Put(model.fields, section, JObj(rebuilt.0))), rebuilt.1)
  {
    var v := GetField(model.fields, section);
    assert Assoc.Get(model.fields, section) == Some(v);
    FormatSectionNonEmpty(section, v.fields, file, modelName);
  }

  lemma FormatSectionNonEmpty(section: string, entries: seq<(string, Json)>, file: string, modelName: string)
    requires entries != []
    ensures |FormatSection(section, entries, file, modelName).0| > 0
  {
    RebuildEmpty(entries, RuleFor(section, file, modelName));
  }

  /** A dictionary record never makes `_format_specifications` raise, and stays a dictionary. */
  lemma {:induction false} FormattedSectionsOfDict(model: Json, sections: seq<string>, file: string, modelName: string)
    requires model.JObj?
    ensures FormattedSections(model, sections, file, modelName).Ok?
    ensures FormattedSections(model, sections, file, modelName).value.0.JObj?
    decreases |sections|
  {
    if sections != [] {
      var step := SectionStep(model, sections[0], Assoc.Get(model.fields, sections[0]), file, modelName);
      FormattedSectionsOfDict(step.0, sections[1..], file, modelName);
    }
  }

  // ================================================================ null stripping

  /** What `clean_dict` keeps of a dictionary entry: `""` only under the media text keys. */
  predicate KeptEntry(entry: (string, Json)) {
    (entry.0 in Config.MEDIA_EMPTY_FIELDS && entry.1 == JStr(""))
    || (entry.1 != JNull && entry.1 != JArr([]) && entry.1 != JStr(""))
  }

  /** What `clean_dict` keeps of a list element. */
  predicate KeptItem(item: Json) {
    item != JNull && item != JStr("") && item != JArr([])
  }

  /**
   * `clean_dict`: a dictionary keeps its kept entries, each value cleaned in turn; a list
   * keeps its kept elements, each cleaned, and becomes `None` when none is left; any
   * other value is returned as it is.
   */
  function CleanDict(v: Json): Json {
    match v
    case JObj(fs) => JObj(CleanFields(fs))
    case JArr(xs) =>
      var kept := CleanItems(xs);
      if kept == [] then JNull else JArr(kept)
    case _ => v
  }

  /** The dictionary branch of `clean_dict`, entry by entry. */
  function CleanFields(fs: seq<(string, Json)>): seq<(string, Json)> {
    if fs == [] then []
    else
      assert fs[0] in fs;
      assert fs[0].1 < fs[0];
      var rest := CleanFields(fs[1..]);
      if KeptEntry(fs[0]) then [(fs[0].0, CleanDict(fs[0].1))] + rest else rest
  }

  /** The list branch of `clean_dict`, element by element. */
  function CleanItems(xs: seq<Json>): seq<Json> {
    if xs == [] then []
    else
      var rest := CleanItems(xs[1..]);
      if KeptItem(xs[0]) then [CleanDict(xs[0])] + rest else rest
  }

  /**
   * The entry-by-entry loop is the comprehension `{k: clean(v) for k, v in d.items() if
   * kept}`: the kept entries, in order, each value cleaned.
   */
  lemma {:induction false} CleanFieldsIsComprehension(fs: seq<(string, Json)>)
    ensures var kept := Filter(KeptEntry, fs);
      && |CleanFields(fs)| == |kept|
      && forall i :: 0 <= i < |kept| ==> CleanFields(fs)[i] == (kept[i].0, CleanDict(kept[i].1))
  {
    if fs != [] {
      CleanFieldsIsComprehension(fs[1..]);
      var rest := Filter(KeptEntry, fs[1..]);
      var kept := Filter(KeptEntry, fs);
      var tail := CleanFields(fs[1..]);
      if KeptEntry(fs[0]) {
        assert kept == [fs[0]] + rest;
        assert CleanFields(fs) == [(fs[0].0, CleanDict(fs[0].1))] + tail;
        forall i | 0 < i < |kept| ensures CleanFields(fs)[i] == (kept[i].0, CleanDict(kept[i].1)) {
          assert kept[i] == rest[i - 1] && CleanFields(fs)[i] == tail[i - 1];
        }
      } else {
        assert kept == rest && CleanFields(fs) == tail;
      }
    }
  }

  /** The element-by-element loop is the comprehension `[clean(v) for v in d if kept]`. */
  lemma {:induction false} CleanItemsIsComprehension(xs: seq<Json>)
    ensures var kept := Filter(KeptItem, xs);
      && |CleanItems(xs)| == |kept|
      && forall i :: 0 <= i < |kept| ==> CleanItems(xs)[i] == CleanDict(kept[i])
  {
    if xs != [] {
      CleanItemsIsComprehension(xs[1..]);
      var rest := Filter(KeptItem, xs[1..]);
      var kept := Filter(KeptItem, xs);
      var tail := CleanItems(xs[1..]);
      if KeptItem(xs[0]) {
        assert kept == [xs[0]] + rest;
        assert CleanItems(xs) == [CleanDict(xs[0])] + tail;
        forall i | 0 < i < |kept| ensures CleanItems(xs)[i] == CleanDict(kept[i]) {
          assert kept[i] == rest[i - 1] && CleanItems(xs)[i] == tail[i - 1];
        }
      } else {
        assert kept == rest && CleanItems(xs) == tail;
      }
    }
  }

  /**
   * The shape `clean_dict` leaves: no empty list anywhere; in a dictionary an empty
   * string only under `desc`, `longDesc` or `attachmentName`; in a list no empty string.
   * `None` may remain.
   */
  predicate Stripped(v: Json) {
    match v
    case JObj(fs) => forall i :: 0 <= i < |fs| ==>
      (fs[i].1 == JStr("") ==> fs[i].0 in Config.MEDIA_EMPTY_FIELDS) && Stripped(fs[i].1)
    case JArr(xs) => |xs| > 0 && forall i :: 0 <= i < |xs| ==> xs[i] != JStr("") && Stripped(xs[i])
    case _ => true
  }

  /** No `None` as a dictionary value or a list element, at any depth. */
  predicate NullFree(v: Json) {
    match v
    case JObj(fs) => forall i :: 0 <= i < |fs| ==> fs[i].1 != JNull && NullFree(fs[i].1)
    case JArr(xs) => forall i :: 0 <= i < |xs| ==> xs[i] != JNull && NullFree(xs[i])
    case _ => true
  }

  /** Whatever `clean_dict` returns has the stripped shape. */
  lemma {:induction false} CleanDictStripped(v: Json)
    ensures Stripped(CleanDict(v))
    decreases v, 1
  {
    match v
    case JObj(fs) => CleanFieldsStripped(fs);
    case JArr(xs) => CleanItemsStripped(xs);
    case _ =>
  }

  lemma {:induction false} CleanFieldsStripped(fs: seq<(string, Json)>)
    ensures Stripped(JObj(CleanFields(fs)))
    decreases fs, 0
  {
    if fs != [] {
      assert fs[0] in fs;
      assert fs[0].1 < fs[0];
      CleanDictStripped(fs[0].1);
      CleanFieldsStripped(fs[1..]);
      var rest := CleanFields(fs[1..]);
      if KeptEntry(fs[0]) {
        var r := [(fs[0].0, CleanDict(fs[0].1))] + rest;
        forall i | 0 <= i < |r| ensures (r[i].1 == JStr("") ==> r[i].0 in Config.MEDIA_EMPTY_FIELDS) && Stripped(r[i].1) {
          if i > 0 {
            assert r[i] == rest[i - 1];
          } else if fs[0].1 != JStr("") {
            CleanDictNotEmptyString(fs[0].1);
          }
        }
      }
    }
  }

  lemma {:induction false} CleanItemsStripped(xs: seq<Json>)
    ensures CleanItems(xs) != [] ==> Stripped(JArr(CleanItems(xs)))
    decreases xs, 0
  {
    if xs != [] {
      CleanDictStripped(xs[0]);
      CleanItemsStripped(xs[1..]);
      var rest := CleanItems(xs[1..]);
      if KeptItem(xs[0]) {
        CleanDictNotEmptyString(xs[0]);
        var r := [CleanDict(xs[0])] + rest;
        forall i | 0 <= i < |r| ensures r[i] != JStr("") && Stripped(r[i]) {
          if i > 0 {
            assert r[i] == rest[i - 1];
          }
        }
      }
    }
  }

  /** Cleaning never produces an empty string from anything else. */
  lemma {:induction false} CleanDictNotEmptyString(v: Json)
    requires v != JStr("")
    ensures CleanDict(v) != JStr("")
  {
  }

  /** A value already in stripped shape with no `None` anywhere is returned unchanged. */
  lemma {:induction false} CleanDictFixes(v: Json)
    requires Stripped(v) && NullFree(v)
    ensures CleanDict(v) == v
    decreases v, 1
  {
    match v
    case JObj(fs) => CleanFieldsFixes(fs);
    case JArr(xs) => CleanItemsFixes(xs);
    case _ =>
  }

  lemma {:induction false} CleanFieldsFixes(fs: seq<(string, Json)>)
    requires Stripped(JObj(fs)) && NullFree(JObj(fs))
    ensures CleanFields(fs) == fs
    decreases fs, 0
  {
    if fs != [] {
      assert fs[0] in fs;
      assert fs[0].1 < fs[0];
      assert Stripped(fs[0].1) && NullFree(fs[0].1);
      CleanDictFixes(fs[0].1);
      StrippedTail(fs);
      CleanFieldsFixes(fs[1..]);
      assert KeptEntry(fs[0]) by {
        assert fs[0].1 != JArr([]);
      }
      assert [(fs[0].0, fs[0].1)] + fs[1..] == fs;
    }
  }

  lemma StrippedTail(fs: seq<(string, Json)>)
    requires fs != [] && Stripped(JObj(fs)) && NullFree(JObj(fs))
    ensures Stripped(JObj(fs[1..])) && NullFree(JObj(fs[1..]))
  {
    assert forall i :: 0 <= i < |fs[1..]| ==> fs[1..][i] == fs[i + 1];
  }

  lemma {:induction false} CleanItemsFixes(xs: seq<Json>)
    requires forall i :: 0 <= i < |xs| ==> xs[i] != JStr("") && Stripped(xs[i]) && xs[i] != JNull && NullFree(xs[i])
    ensures CleanItems(xs) == xs
    decreases xs, 0
  {
    if xs != [] {
      CleanDictFixes(xs[0]);
      CleanItemsFixes(xs[1..]);
      assert xs[0] != JArr([]);
      assert [xs[0]] + xs[1..] == xs;
    }
  }

  /**
   * A list that empties during the pass is left as `None`, which a second pass then
   * removes: stripping is not idempotent.
   */
  lemma CleanDictLeavesNull()
    ensures CleanDict(JObj([("a", JArr([JStr("")]))])) == JObj([("a", JNull)])
    ensures CleanDict(CleanDict(JObj([("a", JArr([JStr("")]))]))) == JObj([])
  {
    var inner := JArr([JStr("")]);
    assert CleanItems([JStr("")]) == [];
    assert CleanDict(inner) == JNull;
    assert KeptEntry(("a", inner));
    assert CleanFields([("a", inner)]) == [("a", JNull)];
    assert !KeptEntry(("a", JNull));
  }

  // ================================================================ one record

  /**
   * The validators the formatter holds: `validate_and_format` of the general section, and
   * the media validation of one media kind.
   */
  datatype Validators = Validators(
    general: (Json, string, string, NameCache) -> (Json, seq<string>),
    media: (MediaValidator.Kind, Json, string, string) -> Result<(Json, seq<string>), PyError>)

  /** The validators of lib/validators.py, with `URLValidator.is_valid_url` as the URL check. */
  function StandardValidators(): Validators {
    Validators(
      (g: Json, file: string, name: string, cache: NameCache) => GeneralValidator.ValidatedGeneral(g, file, name, cache),
      (kind: MediaValidator.Kind, m: Json, file: string, name: string) => MediaValidator.ValidateMedia(kind, m, file, name, TextRules.IsValidUrl))
  }

  /** Where a record stands between the steps of `_format_single_model`. */
  datatype Stage = Going(model: Json, name: Json, issues: IssueMap) | Raised(name: Json, issues: IssueMap, error: PyError)

  /** `for issue in added: report.add_issue(name, issue)`, then carry on with `model`. */
  function Record(model: Json, name: Json, issues: IssueMap, added: seq<string>): (r: Stage)
    ensures r.name == name
  {
    match AddIssues(issues, name, added)
    case Err(e) => Raised(name, issues, e)
    case Ok(now) => Going(model, name, now)
  }

  function MissingSectionIssue(file: string): string {
    "Missing 'general' section in " + file
  }

  /**
   * The general step: the name is read; a present `general` is replaced by its validated
   * form, its issues are recorded under that name and the name is read again; an absent
   * one is reported.
   */
  function GeneralStep(v: Validators, model: Json, file: string, cache: NameCache, issues: IssueMap): Stage {
    var name := GetModelName(model);
    match Lookup(model, "general")
    case Err(e) => Raised(name, issues, e)
    case Ok(None) => Record(model, name, issues, [MissingSectionIssue(file)])
    case Ok(Some(g)) =>
      var formatted := v.general(g, file, Str(name), cache);
      var updated := JObj(Assoc.Put(model.fields, "general", formatted.0));
      match AddIssues(issues, name, formatted.1)
      case Err(e) => Raised(name, issues, e)
      case Ok(now) => Going(updated, GetModelName(updated), now)
  }

  /** Images, videos and attachments in turn; their issues are recorded only once all three ran. */
  function MediaStep(v: Validators, s: Stage, file: string): Stage {
    if s.Raised? then s
    else
      var n := Str(s.name);
      match v.media(MediaValidator.Images, s.model, file, n)
      case Err(e) => Raised(s.name, s.issues, e)
      case Ok(a) =>
        match v.media(MediaValidator.Videos, a.0, file, n)
        case Err(e) => Raised(s.name, s.issues, e)
        case Ok(b) =>
          match v.media(MediaValidator.Attachments, b.0, file, n)
          case Err(e) => Raised(s.name, s.issues, e)
          case Ok(c) => Record(c.0, s.name, s.issues, a.1 + b.1 + c.1)
  }

  function ListsStep(s: Stage, file: string): Stage {
    if s.Raised? then s
    else
      match CleanedLists(s.model, LIST_FIELDS, file, Str(s.name))
      case Err(e) => Raised(s.name, s.issues, e)
      case Ok(r) => Record(r.0, s.name, s.issues, r.1)
  }

  function SpecsStep(s: Stage, file: string): Stage {
    if s.Raised? then s
    else
      match FormattedSections(s.model, Config.SPEC_SECTIONS, file, Str(s.name))
      case Err(e) => Raised(s.name, s.issues, e)
      case Ok(r) => Record(r.0, s.name, s.issues, r.1)
  }

  /** The outcome of one record: its formatted value, or the error line; with the issue map after it. */
  datatype Formatted = Formatted(model: Json, issues: IssueMap) | Failed(message: string, issues: IssueMap)

  /** `Error processing model in {file} - {name}: {e}`, with the name as it stood when the exception was raised. */
  function FailureMessage(file: string, name: Json, e: PyError): string {
    "Error processing model in " + file + " - " + Str(name) + ": " + ErrorText(e)
  }

  /** The end of `_format_single_model`: a record still going is stripped of nulls; a raised one is reported. */
  function Finish(file: string, s: Stage): Formatted {
    match s
    case Going(m, _, now) => Formatted(CleanDict(m), now)
    case Raised(name, now, e) => Failed(FailureMessage(file, name, e), now)
  }

  /** `_format_single_model` as a function of the record, the file, the name cache and the issue map. */
  function FormatRecord(v: Validators, model: Json, file: string, cache: NameCache, issues: IssueMap): Formatted {
    Finish(file, SpecsStep(ListsStep(MediaStep(v, GeneralStep(v, model, file, cache, issues), file), file), file))
  }

  // ---------------------------------------------------------------- what one record guarantees

  lemma RecordExtends(model: Json, name: Json, issues: IssueMap, added: seq<string>)
    ensures Extends(issues, Record(model, name, issues, added).issues)
  {
    if AddIssues(issues, name, added).Ok? {
      AddIssuesExtends(issues, name, added);
    }
  }

  /** Each step only appends issues. */
  lemma GeneralStepExtends(v: Validators, model: Json, file: string, cache: NameCache, issues: IssueMap)
    ensures Extends(issues, GeneralStep(v, model, file, cache, issues).issues)
  {
    var name := GetModelName(model);
    match Lookup(model, "general")
    case Err(_) =>
    case Ok(None) => RecordExtends(model, name, issues, [MissingSectionIssue(file)]);
    case Ok(Some(g)) =>
      var found := v.general(g, file, Str(name), cache).1;
      if AddIssues(issues, name, found).Ok? {
        AddIssuesExtends(issues, name, found);
      }
  }

  /** A step that either passes a raised record on, raises, or records some issues and carries on. */
  ghost predicate RecordsOrRaises(s: Stage, t: Stage) {
    && (s.Raised? ==> t == s)
    && (s.Going? ==> (t.Raised? && t.issues == s.issues) || exists m, added :: t == Record(m, s.name, s.issues, added))
  }

  lemma RecordsOrRaisesExtends(s: Stage, t: Stage)
    requires RecordsOrRaises(s, t)
    ensures Extends(s.issues, t.issues)
  {
    if s.Going? && !(t.Raised? && t.issues == s.issues) {
      var m, added :| t == Record(m, s.name, s.issues, added);
      RecordExtends(m, s.name, s.issues, added);
    }
  }

  lemma MediaStepShape(v: Validators, s: Stage, file: string)
    ensures RecordsOrRaises(s, MediaStep(v, s, file))
  {
    if s.Going? {
      var n := Str(s.name);
      var a := v.media(MediaValidator.Images, s.model, file, n);
      if a.Ok? {
        var b := v.media(MediaValidator.Videos, a.value.0, file, n);
        if b.Ok? {
          var c := v.media(MediaValidator.Attachments, b.value.0, file, n);
          if c.Ok? {
            assert MediaStep(v, s, file) == Record(c.value.0, s.name, s.issues, a.value.1 + b.value.1 + c.value.1);
          }
        }
      }
    }
  }

  lemma ListsStepShape(s: Stage, file: string)
    ensures RecordsOrRaises(s, ListsStep(s, file))
  {
  }

  lemma SpecsStepShape(s: Stage, file: string)
    ensures RecordsOrRaises(s, SpecsStep(s, file))
  {
  }

  lemma StagesExtend(v: Validators, model: Json, file: string, cache: NameCache, issues: IssueMap)
    ensures var s1 := GeneralStep(v, model, file, cache, issues);
      var s2 := MediaStep(v, s1, file);
      var s3 := ListsStep(s2, file);
      && Extends(issues, s1.issues) && Extends(s1.issues, s2.issues)
      && Extends(s2.issues, s3.issues) && Extends(s3.issues, SpecsStep(s3, file).issues)
  {
    var s1 := GeneralStep(v, model, file, cache, issues);
    var s2 := MediaStep(v, s1, file);
    var s3 := ListsStep(s2, file);
    GeneralStepExtends(v, model, file, cache, issues);
    MediaStepShape(v, s1, file);
    RecordsOrRaisesExtends(s1, s2);
    ListsStepShape(s2, file);
    RecordsOrRaisesExtends(s2, s3);
    SpecsStepShape(s3, file);
    RecordsOrRaisesExtends(s3, SpecsStep(s3, file));
  }

  /**
   * Whatever happens to a record, the issues recorded before it (and those it recorded
   * before raising) stay in the report; a record that succeeds comes back stripped.
   */
  lemma FormatRecordFacts(v: Validators, model: Json, file: string, cache: NameCache, issues: IssueMap)
    ensures var f := FormatRecord(v, model, file, cache, issues);
      && Extends(issues, f.issues)
      && (f.Formatted? ==> Stripped(f.model))
  {
    var s1 := GeneralStep(v, model, file, cache, issues);
    var s2 := MediaStep(v, s1, file);
    var s3 := ListsStep(s2, file);
    var s4 := SpecsStep(s3, file);
    StagesExtend(v, model, file, cache, issues);
    ExtendsTransitive(issues, s1.issues, s2.issues);
    ExtendsTransitive(issues, s2.issues, s3.issues);
    ExtendsTransitive(issues, s3.issues, s4.issues);
    if s4.Going? {
      CleanDictStripped(s4.model);
    }
  }

  /**
   * A record without `general` gets the issue "Missing 'general' section in {file}" under
   * "Unknown Model", after whatever that name held before, and it stays there whatever
   * the later steps do.
   */
  lemma MissingGeneralReported(v: Validators, model: Json, file: string, cache: NameCache, issues: IssueMap)
    requires Lookup(model, "general") == Ok(None)
    ensures Assoc.GetOr(issues, UNKNOWN_MODEL, []) + [MissingSectionIssue(file)]
      <= Assoc.GetOr(FormatRecord(v, model, file, cache, issues).issues, UNKNOWN_MODEL, [])
  {
    var s1 := GeneralStep(v, model, file, cache, issues);
    assert GetModelName(model) == UNKNOWN_MODEL by {
      if model.JObj? {
        assert !Assoc.HasKey(model.fields, "general");
      }
    }
    AddIssuesFacts(issues, UNKNOWN_MODEL, [MissingSectionIssue(file)]);
    assert s1.issues == Assoc.Put(issues, UNKNOWN_MODEL, Assoc.GetOr(issues, UNKNOWN_MODEL, []) + [MissingSectionIssue(file)]);
    assert Assoc.HasKey(s1.issues, UNKNOWN_MODEL);
    var s2 := MediaStep(v, s1, file);
    var s3 := ListsStep(s2, file);
    StagesExtend(v, model, file, cache, issues);
    ExtendsTransitive(s1.issues, s2.issues, s3.issues);
    ExtendsTransitive(s1.issues, s3.issues, SpecsStep(s3, file).issues);
  }

  // ================================================================ many records

  /** The report after one record: one more processed, or one more failed with its error line. */
  function Apply(rep: Report, f: Formatted): Report {
    match f
    case Formatted(_, now) => rep.(processed := rep.processed + 1, issues := now)
    case Failed(msg, now) => rep.(failed := rep.failed + 1, issues := now, errors := rep.errors + [msg])
  }

  /** One record's formatting, as a function of the record and the issue map so far. */
  type RecordFormatter = (Json, IssueMap) -> Formatted

  /** `_format_single_model` for a given file and name cache. */
  function FormatterOf(v: Validators, file: string, cache: NameCache): RecordFormatter {
    (m: Json, iss: IssueMap) => FormatRecord(v, m, file, cache, iss)
  }

  /** A formatter that only appends issues and outputs stripped records. */
  ghost predicate WellBehaved(format: RecordFormatter) {
    forall m, iss :: Extends(iss, format(m, iss).issues) && (format(m, iss).Formatted? ==> Stripped(format(m, iss).model))
  }

  lemma FormatterOfWellBehaved(v: Validators, file: string, cache: NameCache)
    ensures WellBehaved(FormatterOf(v, file, cache))
  {
    forall m, iss ensures Extends(iss, FormatRecord(v, m, file, cache, iss).issues)
      && (FormatRecord(v, m, file, cache, iss).Formatted? ==> Stripped(FormatRecord(v, m, file, cache, iss).model))
    {
      FormatRecordFacts(v, m, file, cache, iss);
    }
  }

  /** The loop of `process_json_data` over a list: the formatted records kept, in order, and the report after. */
  function ProcessedRecords(records: seq<Json>, format: RecordFormatter, rep: Report): (seq<Json>, Report)
    decreases |records|
  {
    if records == [] then ([], rep)
    else
      var f := format(records[0], rep.issues);
      var rest := ProcessedRecords(records[1..], format, Apply(rep, f));
      ((if f.Formatted? then [f.model] else []) + rest.0, rest.1)
  }

  /** `process_json_data`: a list counts all its records up front; anything else is one record. */
  function ProcessedData(data: Json, format: RecordFormatter, rep: Report): (seq<Json>, Report) {
    if data.JArr? then ProcessedRecords(data.items, format, rep.(total := rep.total + |data.items|))
    else
      var f := format(data, rep.issues);
      (if f.Formatted? then [f.model] else [], Apply(rep.(total := rep.total + 1), f))
  }

  /**
   * Failure isolation: every record adds exactly one to `processed_models` or to
   * `failed_models`; one record is output per success, in input order; one error line
   * is appended per failure; issues are only ever appended; every output is stripped.
   */
  lemma {:induction false} ProcessedRecordsFacts(records: seq<Json>, format: RecordFormatter, rep: Report)
    requires WellBehaved(format)
    ensures var (out, after) := ProcessedRecords(records, format, rep);
      && after.total == rep.total
      && after.processed + after.failed == rep.processed + rep.failed + |records|
      && after.processed >= rep.processed && after.failed >= rep.failed
      && |out| == after.processed - rep.processed
      && |after.errors| == |rep.errors| + (after.failed - rep.failed)
      && rep.errors <= after.errors
      && Extends(rep.issues, after.issues)
      && forall m :: m in out ==> Stripped(m)
    decreases |records|
  {
    if records != [] {
      var f := format(records[0], rep.issues);
      var rep1 := Apply(rep, f);
      ProcessedRecordsFacts(records[1..], format, rep1);
      var rest := ProcessedRecords(records[1..], format, rep1);
      ExtendsTransitive(rep.issues, rep1.issues, rest.1.issues);
      assert rep.errors <= rep1.errors;
    }
  }

  /** `process_json_data` adds the number of records to `total_models`: the list's length, or 1. */
  lemma ProcessedDataCounts(data: Json, format: RecordFormatter, rep: Report)
    requires WellBehaved(format)
    ensures var (out, after) := ProcessedData(data, format, rep);
      var n := if data.JArr? then |data.items| else 1;
      && after.total == rep.total + n
      && after.processed + after.failed == rep.processed + rep.failed + n
      && |out| == after.processed - rep.processed
      && |after.errors| == |rep.errors| + (after.failed - rep.failed)
      && Extends(rep.issues, after.issues)
  {
    if data.JArr? {
      ProcessedRecordsFacts(data.items, format, rep.(total := rep.total + |data.items|));
    }
  }

  /** A list counts all its records up front and is then processed record by record. */
  lemma ProcessedListStart(data: Json, format: RecordFormatter, rep: Report)
    requires data.JArr?
    ensures ProcessedData(data, format, rep) == ProcessedRecords(data.items, format, rep.(total := rep.total + |data.items|))
  {
  }

  /** Anything but a list is counted as one record and formatted as one. */
  lemma ProcessedSingleStart(data: Json, format: RecordFormatter, rep: Report, f: Formatted)
    requires !data.JArr? && f == format(data, rep.issues)
    ensures ProcessedData(data, format, rep) == (if f.Formatted? then [f.model] else [], Apply(rep.(total := rep.total + 1), f))
  {
  }

  /** One more record of the loop of `process_json_data`: its outcome `f` is applied and its output kept. */
  lemma ProcessedRecordsStep(records: seq<Json>, i: nat, format: RecordFormatter, rep: Report, out: seq<Json>,
                             f: Formatted, rep2: Report, out2: seq<Json>)
    requires i < |records| && f == format(records[i], rep.issues) && rep2 == Apply(rep, f)
    requires out2 == out + (if f.Formatted? then [f.model] else [])
    ensures var now := ProcessedRecords(records[i..], format, rep);
      var rest := ProcessedRecords(records[i + 1..], format, rep2);
      (out + now.0, now.1) == (out2 + rest.0, rest.1)
  {
    assert records[i..][1..] == records[i + 1..];
    var rest := ProcessedRecords(records[i + 1..], format, rep2);
    AppendAssoc(out, if f.Formatted? then [f.model] else [], rest.0);
  }

  // ================================================================ pre-batching

  /**
   * After pre-batching every collected name is a key of the name cache, and every key the
   * cache held before is still there.
   */
  lemma {:induction false} PrebatchCovers(keys: seq<string>, maxCalls: int, c: Cursor, names: seq<string>, instructions: string,
                       oracle: (string, string) -> GeminiClient.Reply, cache: NameCache)
    requires |keys| > 0 && CursorOk(c, |keys|, maxCalls)
    ensures var after := RunBatches(keys, maxCalls, c, Chunks(Unique(names), Config.BATCH_SIZE), instructions, oracle, cache).0;
      && (forall n :: n in names ==> Assoc.HasKey(after, n))
      && (forall k :: Assoc.HasKey(cache, k) ==> Assoc.HasKey(after, k))
  {
    var chunks := Chunks(Unique(names), Config.BATCH_SIZE);
    ChunksFacts(Unique(names), Config.BATCH_SIZE);
    UniqueFacts(names);
    RunBatchesCovers(keys, maxCalls, c, chunks, instructions, oracle, cache);
  }

  /** The chunks from `i` on: the names from `i` to `end`, then the chunks from `end` on. */
  lemma ChunksFrom(unique: seq<string>, i: nat)
    requires i < |unique|
    ensures var end := if i + Config.BATCH_SIZE <= |unique| then i + Config.BATCH_SIZE else |unique|;
      Chunks(unique[i..], Config.BATCH_SIZE) == [unique[i..end]] + Chunks(unique[end..], Config.BATCH_SIZE)
  {
    var end := if i + Config.BATCH_SIZE <= |unique| then i + Config.BATCH_SIZE else |unique|;
    ChunksHead(unique[i..], Config.BATCH_SIZE);
    assert unique[i..][..end - i] == unique[i..end];
    assert unique[i..][end - i..] == unique[end..];
  }

  // ================================================================ the formatter object

  /** The formatter: the language-model client, the report it fills and the name cache. */
  class JSONModelFormatter {
    const client: GeminiClient.GeminiAPIClient
    const report: ModelReport
    const validators: Validators
    var namesCache: NameCache

    /** A formatter with a fresh report and an empty name cache. */
    constructor(geminiClient: GeminiClient.GeminiAPIClient)
      ensures client == geminiClient && fresh(report)
      ensures validators == StandardValidators()
      ensures report.State() == Report(0, 0, 0, [], []) && namesCache == []
    {
      client := geminiClient;
      report := new ModelReport();
      validators := StandardValidators();
      namesCache := [];
    }

    /**
     * `prebatch_model_names`: collects the names of every file (a file that raises ends
     * the call), returns at once when there is none, de-duplicates them, and sends them
     * to the client in batches of `BATCH_SIZE`, merging each answer into the name cache.
     */
    method PrebatchModelNames(allData: seq<(Json, string)>) returns (r: Result<(), PyError>)
      requires client.apiManager.Valid()
      modifies this, client.apiManager
      ensures client.apiManager.Valid()
      ensures var names := AllNames(allData);
        && (names.Err? ==>
              && r == Err(names.error) && namesCache == old(namesCache)
              && client.apiManager.State() == old(client.apiManager.State()))
        && (names.Ok? ==>
              && r == Ok(())
              && (namesCache, client.apiManager.State())
                == RunBatches(client.apiManager.apiKeys, client.apiManager.maxCallsPerKey, old(client.apiManager.State()),
                              Chunks(Unique(names.value), Config.BATCH_SIZE), client.instructions, client.makeApiCall,
                              old(namesCache)))
    {
      var all: seq<string> := [];
      for j := 0 to |allData|
        invariant AllNames(allData[..j]) == Ok(all)
      {
        assert allData[..j + 1][..j] == allData[..j];
        var more := ExtractModelNames(allData[j].0);
        if more.Err? {
          AllNamesPrefixFails(allData, j + 1);
          return Err(more.error);
        }
        all := all + more.value;
      }
      assert allData[..|allData|] == allData;
      if |all| == 0 {
        NoNamesNoCall(client.apiManager.apiKeys, client.apiManager.maxCallsPerKey, client.apiManager.State(),
                      client.instructions, client.makeApiCall, namesCache);
        return Ok(());
      }
      var unique := Dedup(all);
      var i := 0;
      while i < |unique|
        invariant i <= |unique|
        invariant client.apiManager.Valid()
        invariant RunBatches(client.apiManager.apiKeys, client.apiManager.maxCallsPerKey, client.apiManager.State(),
                             Chunks(unique[i..], Config.BATCH_SIZE), client.instructions, client.makeApiCall, namesCache)
          == RunBatches(client.apiManager.apiKeys, client.apiManager.maxCallsPerKey, old(client.apiManager.State()),
                        Chunks(Unique(all), Config.BATCH_SIZE), client.instructions, client.makeApiCall, old(namesCache))
        decreases |unique| - i
      {
        var end := if i + Config.BATCH_SIZE <= |unique| then i + Config.BATCH_SIZE else |unique|;
        ChunksFrom(unique, i);
        ghost var rest := Chunks(unique[end..], Config.BATCH_SIZE);
        assert ([unique[i..end]] + rest)[0] == unique[i..end];
        assert ([unique[i..end]] + rest)[1..] == rest;
        ghost var c := client.apiManager.State();
        GeminiClient.BatchFacts(client.apiManager.apiKeys, client.apiManager.maxCallsPerKey, c, unique[i..end],
                                client.instructions, client.makeApiCall);
        var mapping, calls := client.CapitalizeModelNamesBatch(unique[i..end]);
        namesCache := Update(namesCache, mapping);
        i := end;
      }
      assert unique[i..] == [];
      return Ok(());
    }

    /** `for issue in added: self.report.add_issue(name, issue)`. */
    method RecordIssues(name: Json, added: seq<string>) returns (r: Result<(), PyError>)
      modifies report
      ensures var w := AddIssues(old(report.issuesByModel), name, added);
        && (w.Err? ==> r == Err(w.error) && report.State() == old(report.State()))
        && (w.Ok? ==> r == Ok(()) && report.State() == old(report.State()).(issues := w.value))
    {
      ghost var start := report.issuesByModel;
      for i := 0 to |added|
        invariant AddIssues(start, name, added[..i]) == Ok(report.issuesByModel)
        invariant report.State() == old(report.State()).(issues := report.issuesByModel)
      {
        assert added[..i + 1][..i] == added[..i];
        r := report.AddIssue(name, added[i]);
        if r.Err? {
          RaisesBeforeAdding(start, name, added, i, report.issuesByModel);
          return;
        }
      }
      assert added[..|added|] == added;
      r := Ok(());
    }

    /** The `general` part of `_format_single_model`. */
    method GeneralPhase(model: Json, file: string) returns (s: Stage)
      modifies report
      ensures s == GeneralStep(validators, model, file, namesCache, old(report.issuesByModel))
      ensures report.State() == old(report.State()).(issues := s.issues)
    {
      var name := GetModelName(model);
      var found := Lookup(model, "general");
      if found.Err? {
        return Raised(name, report.issuesByModel, found.error);
      }
      if found.value.None? {
        var r := RecordIssues(name, [MissingSectionIssue(file)]);
        if r.Err? {
          return Raised(name, report.issuesByModel, r.error);
        }
        return Going(model, name, report.issuesByModel);
      }
      var formatted := validators.general(found.value.value, file, Str(name), namesCache);
      var updated := JObj(Assoc.Put(model.fields, "general", formatted.0));
      var r := RecordIssues(name, formatted.1);
      if r.Err? {
        return Raised(name, report.issuesByModel, r.error);
      }
      return Going(updated, GetModelName(updated), report.issuesByModel);
    }

    /** The media part of `_format_single_model`; a record that already raised skips it. */
    method MediaPhase(s: Stage, file: string) returns (t: Stage)
      requires s.issues == report.issuesByModel
      modifies report
      ensures t == MediaStep(validators, s, file)
      ensures report.State() == old(report.State()).(issues := t.issues)
    {
      if s.Raised? {
        return s;
      }
      var n := Str(s.name);
      var images := validators.media(MediaValidator.Images, s.model, file, n);
      if images.Err? {
        return Raised(s.name, s.issues, images.error);
      }
      var videos := validators.media(MediaValidator.Videos, images.value.0, file, n);
      if videos.Err? {
        return Raised(s.name, s.issues, videos.error);
      }
      var attachments := validators.media(MediaValidator.Attachments, videos.value.0, file, n);
      if attachments.Err? {
        return Raised(s.name, s.issues, attachments.error);
      }
      var r := RecordIssues(s.name, images.value.1 + videos.value.1 + attachments.value.1);
      if r.Err? {
        return Raised(s.name, s.issues, r.error);
      }
      return Going(attachments.value.0, s.name, report.issuesByModel);
    }

    /** `_clean_lists`. */
    method CleanLists(model: Json, file: string, modelName: string) returns (r: Result<(Json, seq<string>), PyError>)
      ensures r == CleanedLists(model, LIST_FIELDS, file, modelName)
    {
      var current := model;
      var issues: seq<string> := [];
      assert LIST_FIELDS[0..] == LIST_FIELDS;
      AfterEmpty(CleanedLists(model, LIST_FIELDS, file, modelName));
      for i := 0 to |LIST_FIELDS|
        invariant After(issues, CleanedLists(current, LIST_FIELDS[i..], file, modelName)) == CleanedLists(model, LIST_FIELDS, file, modelName)
      {
        CleanedListsStep(current, LIST_FIELDS[i..], file, modelName, issues);
        assert LIST_FIELDS[i..][1..] == LIST_FIELDS[i + 1..];
        var cleaned := CleanList(current, LIST_FIELDS[i], file, modelName);
        if cleaned.Err? {
          return Err(cleaned.error);
        }
        current := cleaned.value.0;
        issues := issues + cleaned.value.1;
      }
      assert issues + [] == issues;
      return Ok((current, issues));
    }

    /** The list part of `_format_single_model`; a record that already raised skips it. */
    method ListsPhase(s: Stage, file: string) returns (t: Stage)
      requires s.issues == report.issuesByModel
      modifies report
      ensures t == ListsStep(s, file)
      ensures report.State() == old(report.State()).(issues := t.issues)
    {
      if s.Raised? {
        return s;
      }
      var cleaned := CleanLists(s.model, file, Str(s.name));
      if cleaned.Err? {
        return Raised(s.name, s.issues, cleaned.error);
      }
      var r := RecordIssues(s.name, cleaned.value.1);
      if r.Err? {
        return Raised(s.name, s.issues, r.error);
      }
      return Going(cleaned.value.0, s.name, report.issuesByModel);
    }

    /** The inner loop of `_format_specifications`: a section's entries rebuilt into a fresh dictionary. */
    method RebuildSection(section: string, entries: seq<(string, Json)>, file: string, modelName: string)
      returns (formatted: seq<(string, Json)>, issues: seq<string>)
      ensures (formatted, issues) == FormatSection(section, entries, file, modelName)
    {
      ghost var rule := RuleFor(section, file, modelName);
      formatted := [];
      issues := [];
      for j := 0 to |entries|
        invariant (formatted, issues) == Rebuild(entries[..j], rule)
      {
        RebuildStep(entries, rule, j);
        var e := FormatEntry(section, entries[j].0, entries[j].1, file, modelName);
        assert e == rule(entries[j].0, entries[j].1);
        issues := issues + e.2;
        formatted := Assoc.Put(formatted, e.0, e.1);
      }
      assert entries[..|entries|] == entries;
    }

    /** `_format_specifications`: each truthy dictionary section is rebuilt, and `None` when that came out empty. */
    method FormatSpecifications(model: Json, file: string, modelName: string) returns (r: Result<(Json, seq<string>), PyError>)
      ensures r == FormattedSections(model, Config.SPEC_SECTIONS, file, modelName)
    {
      r := FormatSectionsIn(model, Config.SPEC_SECTIONS, file, modelName);
    }

    /** The loop of `_format_specifications` over the given section names, in order. */
    method FormatSectionsIn(model: Json, sections: seq<string>, file: string, modelName: string)
        returns (r: Result<(Json, seq<string>), PyError>)
      ensures r == FormattedSections(model, sections, file, modelName)
    {
      var current := model;
      var issues: seq<string> := [];
      assert sections[0..] == sections;
      AfterEmpty(FormattedSections(model, sections, file, modelName));
      for i := 0 to |sections|
        invariant After(issues, FormattedSections(current, sections[i..], file, modelName)) == FormattedSections(model, sections, file, modelName)
      {
        var section := sections[i];
        FormattedSectionsStep(current, sections[i..], file, modelName, issues);
        assert sections[i..][1..] == sections[i + 1..];
        var found := Lookup(current, section);
        if found.Err? {
          return Err(found.error);
        }
        var next, sectionIssues := FormatSpecSection(current, section, found.value, file, modelName);
        issues := issues + sectionIssues;
        current := next;
      }
      assert issues + [] == issues;
      return Ok((current, issues));
    }

    /** One section of `_format_specifications`: a non-empty dictionary is rebuilt, anything else is left alone. */
    method FormatSpecSection(model: Json, section: string, found: Option<Json>, file: string, modelName: string)
        returns (next: Json, issues: seq<string>)
      requires found.Some? ==> model.JObj?
      ensures (next, issues) == SectionStep(model, section, found, file, modelName)
    {
      if found.None? || !Truthy(found.value) || !found.value.JObj? {
        return model, [];
      }
      var formattedSection, sectionIssues := RebuildSection(section, found.value.fields, file, modelName);
      next := JObj(Assoc.Put(model.fields, section, if |formattedSection| > 0 then JObj(formattedSection) else JNull));
      issues := sectionIssues;
    }

    /** The specification part of `_format_single_model`; a record that already raised skips it. */
    method SpecsPhase(s: Stage, file: string) returns (t: Stage)
      requires s.issues == report.issuesByModel
      modifies report
      ensures t == SpecsStep(s, file)
      ensures report.State() == old(report.State()).(issues := t.issues)
    {
      if s.Raised? {
        return s;
      }
      var formatted := FormatSpecifications(s.model, file, Str(s.name));
      if formatted.Err? {
        return Raised(s.name, s.issues, formatted.error);
      }
      var r := RecordIssues(s.name, formatted.value.1);
      if r.Err? {
        return Raised(s.name, s.issues, r.error);
      }
      return Going(formatted.value.0, s.name, report.issuesByModel);
    }

    /** The four steps of `_format_single_model` in turn, each passing on what the one before left. */
    method RunSteps(model: Json, file: string) returns (s: Stage)
      modifies report
      ensures s == SpecsStep(ListsStep(MediaStep(validators, GeneralStep(validators, model, file, namesCache, old(report.issuesByModel)), file), file), file)
      ensures report.State() == old(report.State()).(issues := s.issues)
    {
      var s1 := GeneralPhase(model, file);
      var s2 := MediaPhase(s1, file);
      var s3 := ListsPhase(s2, file);
      s := SpecsPhase(s3, file);
    }

    /**
     * `_format_single_model`: the steps in turn; an exception in any of them is caught,
     * reported as an error line and counted as a failure; otherwise the record is stripped
     * of nulls and counted as processed.
     */
    method FormatSingleModel(model: Json, file: string) returns (formatted: Json, success: bool)
      modifies report
      ensures var f := FormatRecord(validators, model, file, namesCache, old(report.issuesByModel));
        && success == f.Formatted?
        && (success ==> formatted == f.model)
        && report.State() == Apply(old(report.State()), f)
    {
      var s := RunSteps(model, file);
      formatted, success := Conclude(model, s, file);
    }

    /**
     * The end of `_format_single_model`: a step that raised is reported as an error line and
     * counted as a failure, and the record is returned unchanged; otherwise the record is
     * stripped of nulls and counted as processed.
     */
    method Conclude(model: Json, s: Stage, file: string) returns (formatted: Json, success: bool)
      requires s.issues == report.issuesByModel
      modifies report
      ensures var f := Finish(file, s);
        && success == f.Formatted?
        && (success ==> formatted == f.model)
        && report.State() == Apply(old(report.State()), f)
    {
      if s.Raised? {
        report.AddError(FailureMessage(file, s.name, s.error));
        report.failedModels := report.failedModels + 1;
        return model, false;
      }
      formatted := CleanDict(s.model);
      report.processedModels := report.processedModels + 1;
      success := true;
    }

    /**
     * `process_json_data`: a list counts all its records, formats each in turn and keeps
     * the successes, in order; anything else is one record.
     */
    method ProcessJsonData(data: Json, file: string) returns (out: seq<Json>)
      modifies report
      ensures (out, report.State()) == ProcessedData(data, FormatterOf(validators, file, namesCache), old(report.State()))
    {
      ghost var format := FormatterOf(validators, file, namesCache);
      ghost var start := report.State();
      if data.JArr? {
        report.totalModels := report.totalModels + |data.items|;
        ghost var counted := report.State();
        assert counted == start.(total := start.total + |data.items|);
        ProcessedListStart(data, format, start);
        out := ProcessRecords(data.items, file);
        assert (out, report.State()) == ProcessedRecords(data.items, format, counted);
      } else {
        report.totalModels := report.totalModels + 1;
        ghost var counted := report.State();
        assert counted == start.(total := start.total + 1);
        ghost var f := FormatRecord(validators, data, file, namesCache, start.issues);
        assert f == format(data, start.issues);
        ProcessedSingleStart(data, format, start, f);
        var formatted, success := FormatSingleModel(data, file);
        assert report.State() == Apply(counted, f);
        out := if success then [formatted] else [];
        assert out == if f.Formatted? then [f.model] else [];
      }
      assert (out, report.State()) == ProcessedData(data, format, start);
    }

    /** The loop of `process_json_data` over a list: each record formatted in turn, the successes kept. */
    method ProcessRecords(items: seq<Json>, file: string) returns (out: seq<Json>)
      modifies report
      ensures (out, report.State()) == ProcessedRecords(items, FormatterOf(validators, file, namesCache), old(report.State()))
    {
      ghost var format := FormatterOf(validators, file, namesCache);
      out := [];
      assert items[0..] == items;
      ghost var all := ProcessedRecords(items, format, report.State());
      assert [] + all.0 == all.0;
      for i := 0 to |items|
        invariant var rest := ProcessedRecords(items[i..], format, report.State());
          (out + rest.0, rest.1) == ProcessedRecords(items, format, old(report.State()))
      {
        ghost var rep := report.State();
        ghost var prevOut := out;
        ghost var f := FormatRecord(validators, items[i], file, namesCache, rep.issues);
        assert f == format(items[i], rep.issues);
        var formatted, success := FormatSingleModel(items[i], file);
        assert report.State() == Apply(rep, f);
        if success {
          out := out + [formatted];
        }
        assert out == prevOut + (if f.Formatted? then [f.model] else []);
        ProcessedRecordsStep(items, i, format, rep, prevOut, f, report.State(), out);
      }
      assert items[|items|..] == [];
      assert out + [] == out;
    }
  }
}
