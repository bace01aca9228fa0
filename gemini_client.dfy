/**
 * The batch name-resolution loop of the language-model client (lib/gemini_client.py).
 * The remote call is an oracle: a function from (API key, prompt) to either a raised
 * exception or the list of strings the service returned.
 */
module GeminiClient {
  import opened Wrappers
  import opened Seqs
  import opened Strings
  import Assoc
  import opened ApiManager

  /** What one remote call does: raise, or return a list of names. */
  datatype Reply = Raised(message: string) | Returned(names: seq<string>)

  /** The outcome of a run of attempts: the accepted mapping (if any), the final cursor, the keys sent. */
  datatype Run = Run(mapping: Option<seq<(string, string)>>, cursor: Cursor, tried: set<string>, calls: seq<string>)

  /** The outcome of one batch: the mapping returned, the manager's final cursor, the keys sent to the service. */
  datatype BatchOutcome = BatchOutcome(mapping: seq<(string, string)>, cursor: Cursor, calls: seq<string>)

  /** The numbered list `"1. a\n2. b"` the prompt carries. */
  function NumberedLines(names: seq<string>, from: nat): (r: seq<string>)
    ensures |r| == |names|
    ensures forall i :: 0 <= i < |names| ==> r[i] == NatToString(from + i) + ". " + names[i]
    decreases |names|
  {
    if names == [] then []
    else [NatToString(from) + ". " + names[0]] + NumberedLines(names[1..], from + 1)
  }

  /** The prompt: the fixed instructions, the numbered names in input order, a final newline. */
  function Prompt(instructions: string, names: seq<string>): string {
    instructions + Join("\n", NumberedLines(names, 1)) + "\n"
  }

  /** A reply is used only when it is a non-empty list exactly as long as the input. */
  predicate Accepted(reply: Reply, count: nat) {
    reply.Returned? && |reply.names| > 0 && |reply.names| == count
  }

  /** `{names[i]: results[i] for i in range(len(names))}`: a repeated name keeps its first position and its last value. */
  function Pair(names: seq<string>, results: seq<string>): seq<(string, string)>
    requires |names| == |results|
    decreases |names|
  {
    if names == [] then []
    else
      var n := |names| - 1;
      Assoc.Put(Pair(names[..n], results[..n]), names[n], results[n])
  }

  /** The mapping's keys are exactly the names, each once. */
  lemma {:induction false} PairKeys(names: seq<string>, results: seq<string>)
    requires |names| == |results|
    ensures forall k :: Assoc.HasKey(Pair(names, results), k) <==> k in names
    ensures Assoc.DistinctKeys(Pair(names, results))
    decreases |names|
  {
    if names != [] {
      var n := |names| - 1;
      PairKeys(names[..n], results[..n]);
      PairLast(names, results);
      PairStep(names, Pair(names[..n], results[..n]), results[n]);
    }
  }

  /** Putting the last name into the pairing of the others gives the keys of all names, still distinct. */
  lemma PairStep(names: seq<string>, prev: seq<(string, string)>, v: string)
    requires |names| > 0
    requires forall k :: Assoc.HasKey(prev, k) <==> k in names[..|names| - 1]
    requires Assoc.DistinctKeys(prev)
    ensures forall k :: Assoc.HasKey(Assoc.Put(prev, names[|names| - 1], v), k) <==> k in names
    ensures Assoc.DistinctKeys(Assoc.Put(prev, names[|names| - 1], v))
  {
    Assoc.PutDistinct(prev, names[|names| - 1], v);
    PairStepKeys(names, prev, v);
  }

  lemma PairStepKeys(names: seq<string>, prev: seq<(string, string)>, v: string)
    requires |names| > 0
    requires forall k :: Assoc.HasKey(prev, k) <==> k in names[..|names| - 1]
    ensures forall k :: Assoc.HasKey(Assoc.Put(prev, names[|names| - 1], v), k) <==> k in names
  {
    var n := |names| - 1;
    Assoc.PutHasKey(prev, names[n], v);
    assert names == names[..n] + [names[n]];
  }

  /** `{name: name for name in names}`: the fallback when every attempt fails. */
  function Identity(names: seq<string>): (r: seq<(string, string)>)
    ensures forall k :: Assoc.HasKey(r, k) <==> k in names
    ensures forall k :: k in names ==> Assoc.Get(r, k) == Some(k)
    ensures Assoc.DistinctKeys(r)
  {
    IdentityIsPairWithItself(names);
    PairKeys(names, names);
    Pair(names, names)
  }

  lemma {:induction false} IdentityIsPairWithItself(names: seq<string>)
    ensures forall k :: k in names ==> Assoc.Get(Pair(names, names), k) == Some(k)
    decreases |names|
  {
    if names != [] {
      var n := |names| - 1;
      IdentityIsPairWithItself(names[..n]);
      assert names == names[..n] + [names[n]];
    }
  }

  /** With distinct names, the mapping sends the i-th name to the i-th reply. */
  lemma {:induction false} PairLooksUpByPosition(names: seq<string>, results: seq<string>, i: nat)
    requires |names| == |results| && NoDup(names) && i < |names|
    ensures Assoc.Get(Pair(names, results), names[i]) == Some(results[i])
    decreases |names|, 1
  {
    if i < |names| - 1 {
      PairEarlierName(names, results, i);
    } else {
      PairLast(names, results);
    }
  }

  /** A name before the last keeps the value paired with it, since the last name differs from it. */
  lemma {:induction false} PairEarlierName(names: seq<string>, results: seq<string>, i: nat)
    requires |names| == |results| && NoDup(names) && i < |names| - 1
    ensures Assoc.Get(Pair(names, results), names[i]) == Some(results[i])
    decreases |names|, 0
  {
    var n := |names| - 1;
    NoDupPrefix(names, n);
    PairLooksUpByPosition(names[..n], results[..n], i);
    assert names[..n][i] == names[i] && results[..n][i] == results[i];
    assert names[i] != names[n];
    PairEarlierStep(names, results, i);
  }

  lemma {:induction false} PairEarlierStep(names: seq<string>, results: seq<string>, i: nat)
    requires |names| == |results| && i < |names| - 1 && names[i] != names[|names| - 1]
    requires Assoc.Get(Pair(names[..|names| - 1], results[..|names| - 1]), names[i]) == Some(results[i])
    ensures Assoc.Get(Pair(names, results), names[i]) == Some(results[i])
  {
    var n := |names| - 1;
    var prev := Pair(names[..n], results[..n]);
    var last, name := names[n], names[i];
    assert name != last;
    calc {
      Assoc.Get(Pair(names, results), names[i]);
      { PairLast(names, results); }
      Assoc.Get(Assoc.Put(prev, last, results[n]), name);
      { GetAfterOtherPut(prev, last, results[n], name); }
      Assoc.Get(prev, name);
    }
  }

  lemma {:induction false} GetAfterOtherPut(d: seq<(string, string)>, k: string, v: string, other: string)
    requires other != k
    ensures Assoc.Get(Assoc.Put(d, k, v), other) == Assoc.Get(d, other)
  {
  }

  lemma NoDupPrefix(s: seq<string>, n: nat)
    requires NoDup(s) && n <= |s|
    ensures NoDup(s[..n])
  {
    forall p, q | 0 <= p < q < n ensures s[..n][p] != s[..n][q] {
      assert s[..n][p] == s[p] && s[..n][q] == s[q];
    }
  }

  /** The last name is assigned last. */
  lemma {:induction false} PairLast(names: seq<string>, results: seq<string>)
    requires |names| == |results| > 0
    ensures Pair(names, results)
      == Assoc.Put(Pair(names[..|names| - 1], results[..|names| - 1]), names[|names| - 1], results[|names| - 1])
  {
  }

  /**
   * The loop `for retry in range(max_retries)` from a given state, with `remaining`
   * iterations left: a key already tried is skipped with a rotation and no call; a raised
   * exception rotates; an accepted reply counts the call and ends the loop; any other
   * reply ends the iteration without rotating.
   */
  function Attempts(keys: seq<string>, maxCalls: int, c: Cursor, tried: set<string>, calls: seq<string>,
                    names: seq<string>, prompt: string, oracle: (string, string) -> Reply, remaining: nat): Run
    requires |keys| > 0 && c.index < |keys|
    decreases remaining
  {
    if remaining == 0 then Run(None, c, tried, calls)
    else
      var key := keys[c.index];
      if key in tried then
        Attempts(keys, maxCalls, Rotated(c, |keys|), tried, calls, names, prompt, oracle, remaining - 1)
      else
        var reply := oracle(key, prompt);
        if reply.Raised? then
          Attempts(keys, maxCalls, Rotated(c, |keys|), tried + {key}, calls + [key], names, prompt, oracle, remaining - 1)
        else if Accepted(reply, |names|) then
          Run(Some(Pair(names, reply.names)), Incremented(c, |keys|, maxCalls), tried + {key}, calls + [key])
        else
          Attempts(keys, maxCalls, c, tried + {key}, calls + [key], names, prompt, oracle, remaining - 1)
  }

  /** `capitalize_model_names_batch` on the manager's cursor `c`. */
  function Batch(keys: seq<string>, maxCalls: int, c: Cursor, names: seq<string>, instructions: string,
                 oracle: (string, string) -> Reply): BatchOutcome
    requires |keys| > 0 && c.index < |keys|
  {
    if names == [] then BatchOutcome([], c, [])
    else
      var run := Attempts(keys, maxCalls, c, {}, [], names, Prompt(instructions, names), oracle, |keys|);
      match run.mapping
      case Some(m) => BatchOutcome(m, run.cursor, run.calls)
      case None => BatchOutcome(Identity(names), run.cursor, run.calls)
  }

  /** The set of tried keys is exactly the set of keys sent, and none was sent twice. */
  ghost predicate Consistent(tried: set<string>, calls: seq<string>) {
    NoDup(calls) && forall k :: k in tried <==> k in calls
  }

  /** The calls of a later state: the earlier ones, then at most `remaining` more, each a pool key. */
  ghost predicate CallsExtend(keys: seq<string>, calls: seq<string>, later: seq<string>, remaining: nat) {
    && |calls| <= |later| <= |calls| + remaining
    && later[..|calls|] == calls
    && (forall i :: |calls| <= i < |later| ==> later[i] in keys)
  }

  /** No call from position `from` on got a reply that names `count` models. */
  ghost predicate NoneAccepted(oracle: (string, string) -> Reply, prompt: string, count: nat, later: seq<string>, from: nat) {
    forall i :: from <= i < |later| ==> !Accepted(oracle(later[i], prompt), count)
  }

  /** A call to `key` that was not accepted, followed by the rest of the run. */
  lemma AfterRejectedCall(keys: seq<string>, calls: seq<string>, key: string, later: seq<string>, remaining: nat,
                          oracle: (string, string) -> Reply, prompt: string, count: nat)
    requires key in keys && remaining > 0 && CallsExtend(keys, calls + [key], later, remaining - 1)
    requires !Accepted(oracle(key, prompt), count)
    ensures CallsExtend(keys, calls, later, remaining)
    ensures NoneAccepted(oracle, prompt, count, later, |calls| + 1) ==> NoneAccepted(oracle, prompt, count, later, |calls|)
  {
    var calls' := calls + [key];
    assert later[..|calls|] == later[..|calls'|][..|calls|];
    assert later[|calls|] == later[..|calls'|][|calls|];
  }

  /**
   * What a run of attempts from cursor `c`, with `calls` made so far, guarantees: the calls
   * made extend the earlier ones with distinct pool keys, at most one per iteration; the
   * cursor stays valid; `total_calls` rises by one exactly on success; a success pairs the
   * names with the reply to the last call, and a failure means no call made got an
   * acceptable reply.
   */
  ghost predicate RunOk(keys: seq<string>, maxCalls: int, c: Cursor, calls: seq<string>, names: seq<string>,
                        prompt: string, oracle: (string, string) -> Reply, remaining: nat, run: Run) {
    && Consistent(run.tried, run.calls)
    && CursorOk(run.cursor, |keys|, maxCalls)
    && CallsExtend(keys, calls, run.calls, remaining)
    && run.cursor.totalCalls == c.totalCalls + (if run.mapping.Some? then 1 else 0)
    && (run.mapping.Some? ==>
          |run.calls| > |calls|
          && Accepted(oracle(run.calls[|run.calls| - 1], prompt), |names|)
          && run.mapping.value == Pair(names, oracle(run.calls[|run.calls| - 1], prompt).names))
    && (run.mapping.None? ==> NoneAccepted(oracle, prompt, |names|, run.calls, |calls|))
  }

  lemma {:induction false} AttemptsFacts(keys: seq<string>, maxCalls: int, c: Cursor, tried: set<string>,
                                         calls: seq<string>, names: seq<string>, prompt: string,
                                         oracle: (string, string) -> Reply, remaining: nat)
    requires |keys| > 0 && CursorOk(c, |keys|, maxCalls) && Consistent(tried, calls)
    ensures RunOk(keys, maxCalls, c, calls, names, prompt, oracle, remaining,
                  Attempts(keys, maxCalls, c, tried, calls, names, prompt, oracle, remaining))
    decreases remaining, 1
  {
    if remaining > 0 {
      var key := keys[c.index];
      var reply := oracle(key, prompt);
      if key in tried {
        SkipFacts(keys, maxCalls, c, tried, calls, names, prompt, oracle, remaining);
      } else if reply.Raised? {
        RaisedFacts(keys, maxCalls, c, tried, calls, names, prompt, oracle, remaining);
      } else if Accepted(reply, |names|) {
        AcceptedFacts(keys, maxCalls, c, tried, calls, names, prompt, oracle, remaining);
      } else {
        RejectedFacts(keys, maxCalls, c, tried, calls, names, prompt, oracle, remaining);
      }
    }
  }

  /** A key already tried is passed over: the cursor rotates, no call is made, and the loop goes on. */
  lemma {:induction false} SkipFacts(keys: seq<string>, maxCalls: int, c: Cursor, tried: set<string>,
                  calls: seq<string>, names: seq<string>, prompt: string,
                  oracle: (string, string) -> Reply, remaining: nat)
    requires |keys| > 0 && CursorOk(c, |keys|, maxCalls) && Consistent(tried, calls)
    requires remaining > 0 && keys[c.index] in tried
    ensures Attempts(keys, maxCalls, c, tried, calls, names, prompt, oracle, remaining)
      == Attempts(keys, maxCalls, Rotated(c, |keys|), tried, calls, names, prompt, oracle, remaining - 1)
    ensures RunOk(keys, maxCalls, c, calls, names, prompt, oracle, remaining,
                  Attempts(keys, maxCalls, c, tried, calls, names, prompt, oracle, remaining))
    decreases remaining, 0
  {
    var n := |keys|;
    StepKeepsCursorOk(c, Failure, n, maxCalls);
    var c' := Rotated(c, n);
    AttemptsFacts(keys, maxCalls, c', tried, calls, names, prompt, oracle, remaining - 1);
    var run := Attempts(keys, maxCalls, c', tried, calls, names, prompt, oracle, remaining - 1);
    assert Attempts(keys, maxCalls, c, tried, calls, names, prompt, oracle, remaining) == run;
  }

  /** Sending `key` records it as tried and as the next call. */
  lemma SendKeepsConsistent(tried: set<string>, calls: seq<string>, key: string)
    requires Consistent(tried, calls) && key !in tried
    ensures Consistent(tried + {key}, calls + [key])
  {
    assert forall i :: 0 <= i < |calls| ==> (calls + [key])[i] == calls[i];
  }

  /** A call that raised: the key is recorded as tried and as sent, the cursor rotates, and the loop goes on. */
  lemma {:induction false} RaisedFacts(keys: seq<string>, maxCalls: int, c: Cursor, tried: set<string>,
                    calls: seq<string>, names: seq<string>, prompt: string,
                    oracle: (string, string) -> Reply, remaining: nat)
    requires |keys| > 0 && CursorOk(c, |keys|, maxCalls) && Consistent(tried, calls)
    requires remaining > 0 && keys[c.index] !in tried && oracle(keys[c.index], prompt).Raised?
    ensures var key := keys[c.index];
      Attempts(keys, maxCalls, c, tried, calls, names, prompt, oracle, remaining)
        == Attempts(keys, maxCalls, Rotated(c, |keys|), tried + {key}, calls + [key], names, prompt, oracle, remaining - 1)
    ensures RunOk(keys, maxCalls, c, calls, names, prompt, oracle, remaining,
                  Attempts(keys, maxCalls, c, tried, calls, names, prompt, oracle, remaining))
    decreases remaining, 0
  {
    var n, key := |keys|, keys[c.index];
    SendKeepsConsistent(tried, calls, key);
    StepKeepsCursorOk(c, Failure, n, maxCalls);
    var c' := Rotated(c, n);
    AttemptsFacts(keys, maxCalls, c', tried + {key}, calls + [key], names, prompt, oracle, remaining - 1);
    var run := Attempts(keys, maxCalls, c', tried + {key}, calls + [key], names, prompt, oracle, remaining - 1);
    assert Attempts(keys, maxCalls, c, tried, calls, names, prompt, oracle, remaining) == run;
    AfterRejectedCall(keys, calls, key, run.calls, remaining, oracle, prompt, |names|);
  }

  /** An accepted reply: the call is counted and the loop ends with the paired mapping. */
  lemma {:induction false} AcceptedFacts(keys: seq<string>, maxCalls: int, c: Cursor, tried: set<string>,
                      calls: seq<string>, names: seq<string>, prompt: string,
                      oracle: (string, string) -> Reply, remaining: nat)
    requires |keys| > 0 && CursorOk(c, |keys|, maxCalls) && Consistent(tried, calls)
    requires remaining > 0 && keys[c.index] !in tried && Accepted(oracle(keys[c.index], prompt), |names|)
    ensures var key := keys[c.index];
      Attempts(keys, maxCalls, c, tried, calls, names, prompt, oracle, remaining)
        == Run(Some(Pair(names, oracle(key, prompt).names)), Incremented(c, |keys|, maxCalls), tried + {key}, calls + [key])
    ensures RunOk(keys, maxCalls, c, calls, names, prompt, oracle, remaining,
                  Attempts(keys, maxCalls, c, tried, calls, names, prompt, oracle, remaining))
  {
    var n, key := |keys|, keys[c.index];
    SendKeepsConsistent(tried, calls, key);
    StepKeepsCursorOk(c, Increment, n, maxCalls);
    var reply := oracle(key, prompt);
    var run := Run(Some(Pair(names, reply.names)), Incremented(c, n, maxCalls), tried + {key}, calls + [key]);
    assert Attempts(keys, maxCalls, c, tried, calls, names, prompt, oracle, remaining) == run;
    assert run.calls[|run.calls| - 1] == key && run.calls[..|calls|] == calls;
  }

  /** A reply of the wrong length: the key is recorded as tried and as sent, the cursor stays, and the loop goes on. */
  lemma {:induction false} RejectedFacts(keys: seq<string>, maxCalls: int, c: Cursor, tried: set<string>,
                      calls: seq<string>, names: seq<string>, prompt: string,
                      oracle: (string, string) -> Reply, remaining: nat)
    requires |keys| > 0 && CursorOk(c, |keys|, maxCalls) && Consistent(tried, calls)
    requires remaining > 0 && keys[c.index] !in tried
    requires var reply := oracle(keys[c.index], prompt); !reply.Raised? && !Accepted(reply, |names|)
    ensures var key := keys[c.index];
      Attempts(keys, maxCalls, c, tried, calls, names, prompt, oracle, remaining)
        == Attempts(keys, maxCalls, c, tried + {key}, calls + [key], names, prompt, oracle, remaining - 1)
    ensures RunOk(keys, maxCalls, c, calls, names, prompt, oracle, remaining,
                  Attempts(keys, maxCalls, c, tried, calls, names, prompt, oracle, remaining))
    decreases remaining, 0
  {
    var key := keys[c.index];
    SendKeepsConsistent(tried, calls, key);
    AttemptsFacts(keys, maxCalls, c, tried + {key}, calls + [key], names, prompt, oracle, remaining - 1);
    var run := Attempts(keys, maxCalls, c, tried + {key}, calls + [key], names, prompt, oracle, remaining - 1);
    assert Attempts(keys, maxCalls, c, tried, calls, names, prompt, oracle, remaining) == run;
    AfterRejectedCall(keys, calls, key, run.calls, remaining, oracle, prompt, |names|);
  }

  /**
   * What one batch guarantees: the mapping's keys are exactly the input names; the keys
   * sent are distinct pool keys, at most one per key in the pool; `total_calls` rises by
   * one exactly when a reply is accepted, which then supplies the mapping; otherwise no
   * key sent got an acceptable reply and every name maps to itself.
   */
  ghost predicate BatchOk(keys: seq<string>, maxCalls: int, c: Cursor, names: seq<string>, instructions: string,
                          oracle: (string, string) -> Reply, out: BatchOutcome) {
    && (forall k :: Assoc.HasKey(out.mapping, k) <==> k in names)
    && NoDup(out.calls) && |out.calls| <= |keys|
    && (forall i :: 0 <= i < |out.calls| ==> out.calls[i] in keys)
    && CursorOk(out.cursor, |keys|, maxCalls)
    && var prompt := Prompt(instructions, names);
       var accepted := |out.calls| > 0 && Accepted(oracle(out.calls[|out.calls| - 1], prompt), |names|);
       && out.cursor.totalCalls == c.totalCalls + (if accepted then 1 else 0)
       && (accepted ==> out.mapping == Pair(names, oracle(out.calls[|out.calls| - 1], prompt).names))
       && (!accepted ==>
             (forall i :: 0 <= i < |out.calls| ==> !Accepted(oracle(out.calls[i], prompt), |names|))
             && forall k :: k in names ==> Assoc.Get(out.mapping, k) == Some(k))
  }

  lemma BatchFacts(keys: seq<string>, maxCalls: int, c: Cursor, names: seq<string>, instructions: string,
                   oracle: (string, string) -> Reply)
    requires |keys| > 0 && CursorOk(c, |keys|, maxCalls)
    ensures BatchOk(keys, maxCalls, c, names, instructions, oracle, Batch(keys, maxCalls, c, names, instructions, oracle))
  {
    if names != [] {
      var prompt := Prompt(instructions, names);
      AttemptsFacts(keys, maxCalls, c, {}, [], names, prompt, oracle, |keys|);
      var run := Attempts(keys, maxCalls, c, {}, [], names, prompt, oracle, |keys|);
      if run.mapping.Some? {
        assert Batch(keys, maxCalls, c, names, instructions, oracle) == BatchOutcome(run.mapping.value, run.cursor, run.calls);
        AcceptedRunOk(keys, maxCalls, c, names, instructions, oracle, run);
      } else {
        assert Batch(keys, maxCalls, c, names, instructions, oracle) == BatchOutcome(Identity(names), run.cursor, run.calls);
        FallbackRunOk(keys, maxCalls, c, names, instructions, oracle, run);
      }
    } else {
      assert Batch(keys, maxCalls, c, names, instructions, oracle) == BatchOutcome([], c, []);
    }
  }

  /** A run that ended on an accepted reply gives a batch whose mapping pairs the names with that reply. */
  lemma AcceptedRunOk(keys: seq<string>, maxCalls: int, c: Cursor, names: seq<string>, instructions: string,
                      oracle: (string, string) -> Reply, run: Run)
    requires RunOk(keys, maxCalls, c, [], names, Prompt(instructions, names), oracle, |keys|, run)
    requires run.mapping.Some?
    ensures BatchOk(keys, maxCalls, c, names, instructions, oracle, BatchOutcome(run.mapping.value, run.cursor, run.calls))
  {
    var prompt := Prompt(instructions, names);
    var out := BatchOutcome(run.mapping.value, run.cursor, run.calls);
    assert CallsExtend(keys, [], run.calls, |keys|);
    var last := run.calls[|run.calls| - 1];
    var reply := oracle(last, prompt);
    assert out.calls[|out.calls| - 1] == last;
    assert Accepted(reply, |names|);
    assert out.mapping == Pair(names, reply.names);
    PairKeys(names, reply.names);
    assert forall k :: Assoc.HasKey(out.mapping, k) <==> k in names;
    assert NoDup(out.calls) && |out.calls| <= |keys|;
    assert forall i :: 0 <= i < |out.calls| ==> out.calls[i] in keys;
    assert CursorOk(out.cursor, |keys|, maxCalls);
    assert out.cursor.totalCalls == c.totalCalls + 1;
  }

  /** A run in which no reply was accepted gives a batch that maps every name to itself. */
  lemma FallbackRunOk(keys: seq<string>, maxCalls: int, c: Cursor, names: seq<string>, instructions: string,
                      oracle: (string, string) -> Reply, run: Run)
    requires RunOk(keys, maxCalls, c, [], names, Prompt(instructions, names), oracle, |keys|, run)
    requires run.mapping.None?
    ensures BatchOk(keys, maxCalls, c, names, instructions, oracle, BatchOutcome(Identity(names), run.cursor, run.calls))
  {
    var prompt := Prompt(instructions, names);
    assert CallsExtend(keys, [], run.calls, |keys|);
    assert NoneAccepted(oracle, prompt, |names|, run.calls, 0);
    if |run.calls| > 0 {
      assert !Accepted(oracle(run.calls[|run.calls| - 1], prompt), |names|);
    }
  }

  /** An empty batch makes no call and leaves the manager as it was. */
  lemma EmptyBatch(keys: seq<string>, maxCalls: int, c: Cursor, instructions: string, oracle: (string, string) -> Reply)
    requires |keys| > 0 && c.index < |keys|
    ensures Batch(keys, maxCalls, c, [], instructions, oracle) == BatchOutcome([], c, [])
  {
  }

  /**
   * A reply of the wrong length does not rotate: the next iteration finds the same key
   * already tried and only rotates, so the mismatch uses up two iterations.
   */
  lemma MismatchUsesTwoIterations(keys: seq<string>, maxCalls: int, c: Cursor, tried: set<string>,
                                  calls: seq<string>, names: seq<string>, prompt: string,
                                  oracle: (string, string) -> Reply, remaining: nat)
    requires |keys| > 0 && c.index < |keys| && remaining >= 2
    requires keys[c.index] !in tried
    requires oracle(keys[c.index], prompt).Returned? && !Accepted(oracle(keys[c.index], prompt), |names|)
    ensures Attempts(keys, maxCalls, c, tried, calls, names, prompt, oracle, remaining)
      == Attempts(keys, maxCalls, Rotated(c, |keys|), tried + {keys[c.index]}, calls + [keys[c.index]],
                  names, prompt, oracle, remaining - 2)
  {
    var key := keys[c.index];
    assert Attempts(keys, maxCalls, c, tried, calls, names, prompt, oracle, remaining)
      == Attempts(keys, maxCalls, c, tried + {key}, calls + [key], names, prompt, oracle, remaining - 1);
  }

  /** The oracle of the example below: the first key answers with an empty list, the second would answer correctly. */
  function FirstKeyEmpty(key: string, prompt: string): Reply {
    if key == "key-1" then Returned([]) else Returned(["Pump X"])
  }

  /**
   * With two keys where the first answers with an empty list, the second key is never
   * asked: the batch falls back to the identity mapping after a single call, and ends on
   * the second key with `total_calls` unchanged.
   */
  lemma MismatchSkipsRemainingKey()
    ensures var out := Batch(["key-1", "key-2"], 15, Cursor(0, 0, 0), ["pump x"], "", FirstKeyEmpty);
      && out.calls == ["key-1"]
      && out.mapping == Identity(["pump x"])
      && out.cursor == Cursor(1, 0, 0)
  {
    var keys := ["key-1", "key-2"];
    var names := ["pump x"];
    var prompt := Prompt("", names);
    var c0 := Cursor(0, 0, 0);
    MismatchUsesTwoIterations(keys, 15, c0, {}, [], names, prompt, FirstKeyEmpty, 2);
    assert Rotated(c0, 2) == Cursor(1, 0, 0);
    assert Attempts(keys, 15, Cursor(1, 0, 0), {"key-1"}, ["key-1"], names, prompt, FirstKeyEmpty, 0)
      == Run(None, Cursor(1, 0, 0), {"key-1"}, ["key-1"]);
  }

  /** The client: its key manager, the fixed prompt instructions and the remote call. */
  class GeminiAPIClient {
    const apiManager: APIKeyManager
    const instructions: string
    const makeApiCall: (string, string) -> Reply

    constructor(manager: APIKeyManager, promptInstructions: string, call: (string, string) -> Reply)
      ensures apiManager == manager && instructions == promptInstructions && makeApiCall == call
    {
      apiManager := manager;
      instructions := promptInstructions;
      makeApiCall := call;
    }

    /** `capitalize_model_names_batch`: returns the mapping and (as a ghost) the keys sent. */
    method CapitalizeModelNamesBatch(names: seq<string>) returns (mapping: seq<(string, string)>, ghost calls: seq<string>)
      requires apiManager.Valid()
      modifies apiManager
      ensures apiManager.Valid()
      ensures var out := Batch(apiManager.apiKeys, apiManager.maxCallsPerKey, old(apiManager.State()),
                               names, instructions, makeApiCall);
        mapping == out.mapping && apiManager.State() == out.cursor && calls == out.calls
    {
      var keys := apiManager.apiKeys;
      ghost var start := apiManager.State();
      if |names| == 0 {
        return [], [];
      }
      var prompt := Prompt(instructions, names);
      var tried: set<string> := {};
      calls := [];
      var maxRetries := |keys|;
      var retry := 0;
      while retry < maxRetries
        invariant 0 <= retry <= maxRetries
        invariant apiManager.Valid() && apiManager.apiKeys == keys
        invariant Attempts(keys, apiManager.maxCallsPerKey, apiManager.State(), tried, calls, names, prompt,
                           makeApiCall, maxRetries - retry)
          == Attempts(keys, apiManager.maxCallsPerKey, start, {}, [], names, prompt, makeApiCall, maxRetries)
      {
        var key := apiManager.CurrentKey();
        if key in tried {
          apiManager.RotateOnFailure();
          retry := retry + 1;
          continue;
        }
        tried := tried + {key};
        calls := calls + [key];
        var reply := makeApiCall(key, prompt);
        if reply.Raised? {
          apiManager.RotateOnFailure();
          retry := retry + 1;
          continue;
        }
        if |reply.names| > 0 && |reply.names| == |names| {
          mapping := Pair(names, reply.names);
          apiManager.IncrementCallCount();
          return;
        }
        retry := retry + 1;
      }
      mapping := Identity(names);
    }
  }
}
