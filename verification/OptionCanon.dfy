// reorganizeCompilationOptionsAux of src/Utilities/utilities.cpp: the compilation options that
// matter, in a canonical order.
module OptionCanon {
  import opened Options

  // The keys, in the order in which the program looks for them.
  const KEYS: seq<string> :=
    ["-double", "-single", "-sch", "-omp", "-pl", "-vec", "-dfs", "-vls", "-fun", "-g", "-vs", "-lv",
     "-scal", "-inpl", "-mcd", "-cn"]

  const DOUBLE := 0
  const SINGLE := 1
  const SCH := 2
  const OMP := 3
  const PL := 4
  const VEC := 5
  const DFS := 6
  const VLS := 7
  const FUN := 8
  const G := 9
  const VS := 10
  const LV := 11
  const SCAL := 12
  const INPL := 13
  const MCD := 14
  const CN := 15

  function Key(k: nat): string
    requires k < 16
  {
    KEYS[k]
  }

  predicate IsDash(s: string) { s != "" && s[0] == '-' }

  lemma KeysDistinct()
    ensures forall i: nat, j: nat :: i < j < 16 ==> Key(i) != Key(j)
    ensures forall i: nat :: i < 16 ==> IsDash(Key(i))
  {
    forall i: nat, j: nat | i < j < 16
      ensures Key(i) != Key(j)
    {
      var a, b := KEYS[i], KEYS[j];
      assert |a| != |b| || a[1] != b[1] || a[2] != b[2];
    }
  }

  // ---- the primitives ----

  function Erase(s: seq<string>, i: nat): seq<string>
    requires i < |s|
  {
    s[..i] + s[i + 1..]
  }

  // The first position of a key.
  function First(s: seq<string>, key: string): (i: nat)
    ensures i <= |s| && (i < |s| ==> s[i] == key) && (forall j :: 0 <= j < i ==> s[j] != key)
    ensures i < |s| <==> key in s
  {
    if s == [] || s[0] == key then 0 else 1 + First(s[1..], key)
  }

  method ParseKey(options: seq<string>, key: string, position: int) returns (found: bool, position': int)
    ensures found <==> key in options
    ensures position' == if found then First(options, key) else position
  {
    var i := 0;
    while i < |options|
      invariant 0 <= i <= |options| && forall j :: 0 <= j < i ==> options[j] != key
    {
      if key == options[i] {
        return true, i;
      }
      i := i + 1;
    }
    return false, position;
  }

  method AddKeyIfExisting(options: seq<string>, newoptions: seq<string>, key: string, defaultKey: string, position: int)
    returns (options': seq<string>, newoptions': seq<string>, position': int, added: bool)
    ensures added <==> key in options
    ensures added ==> options' == Erase(options, First(options, key)) && newoptions' == newoptions + [key]
    ensures added ==> position' == First(options, key) - 1
    ensures !added ==> options' == options && position' == position
    ensures !added ==> newoptions' == newoptions + if defaultKey != "" then [defaultKey] else []
    ensures options' == TakeFlag(options, key, if defaultKey != "" then [defaultKey] else []).0
    ensures newoptions' == newoptions + TakeFlag(options, key, if defaultKey != "" then [defaultKey] else []).1
  {
    options', newoptions' := options, newoptions;
    var found;
    found, position' := ParseKey(options, key, position);
    if found {
      newoptions' := newoptions' + [options'[position']];
      options' := options'[..position'] + options'[position' + 1..];
      position' := position' - 1;
      added := true;
    } else {
      if defaultKey != "" {
        newoptions' := newoptions' + [defaultKey];
      }
      added := false;
    }
  }

  method AddKeyValueIfExisting(options: seq<string>, newoptions: seq<string>, key: string, defaultValue: string)
    returns (options': seq<string>, newoptions': seq<string>)
    ensures options' == TakeValue(options, key, defaultValue).0
    ensures newoptions' == newoptions + TakeValue(options, key, defaultValue).1
  {
    var position := 0;
    var added;
    options', newoptions', position, added := AddKeyIfExisting(options, newoptions, key, "", position);
    if added {
      if position + 1 < |options'| && !IsDash(options'[position + 1]) {
        newoptions' := newoptions' + [options'[position + 1]];
        options' := options'[..position + 1] + options'[position + 2..];
        position := position - 1;
      } else {
        newoptions' := newoptions' + [defaultValue];
      }
    }
  }

  // What is left of the options, and what is added to the new ones.
  function TakeFlag(s: seq<string>, key: string, defaultKey: seq<string>): (seq<string>, seq<string>) {
    if key in s then (Erase(s, First(s, key)), [key]) else (s, defaultKey)
  }

  function TakeValue(s: seq<string>, key: string, defaultValue: string): (seq<string>, seq<string>) {
    if key !in s then (s, [])
    else
      var i := First(s, key);
      var rest := Erase(s, i);
      if i < |rest| && !IsDash(rest[i]) then (Erase(rest, i), [key, rest[i]]) else (rest, [key, defaultValue])
  }

  // ---- the sequence of steps ----

  datatype RawStep =
    | Flag(at: nat, orElse: Option<nat>)  // a key without value, or else another key
    | Value(at: nat, defaultValue: string)
    | Push(at: nat)
  {
    function High(): nat { if Flag? && orElse.Some? then orElse.value else at }
  }

  type Step = s: RawStep | s.at < 16 && s.High() < 16 witness Push(0)

  // The keys of the steps follow the order of KEYS.
  ghost predicate Ordered(steps: seq<Step>, low: nat) {
    steps == [] ||
    (low <= steps[0].at <= steps[0].High()
     && (steps[0].Value? ==> !IsDash(steps[0].defaultValue))
     && Ordered(steps[1..], steps[0].High() + 1))
  }

  ghost function Take(s: seq<string>, step: Step): (seq<string>, seq<string>) {
    match step
    case Flag(at, orElse) => TakeFlag(s, Key(at), if orElse.Some? then [Key(orElse.value)] else [])
    case Value(at, v) => TakeValue(s, Key(at), v)
    case Push(at) => (s, [Key(at)])
  }

  ghost function Output(s: seq<string>, steps: seq<Step>): seq<string>
    decreases |steps|
  {
    if steps == [] then [] else Take(s, steps[0]).1 + Output(Take(s, steps[0]).0, steps[1..])
  }

  // The steps that depend on -vec.
  ghost function VectorSteps(rest: seq<Step>): seq<Step> {
    [Flag(DFS, None)] + ([Flag(VLS, None)] + ([Flag(FUN, None)] + ([Flag(G, None)]
    + ([Value(VS, "32")] + ([Value(LV, "0")] + rest)))))
  }

  ghost function ScalarSteps(rest: seq<Step>): seq<Step> {
    [Flag(SCAL, Some(SCAL))] + ([Flag(INPL, None)] + rest)
  }

  ghost function LastSteps(): seq<Step> { [Value(MCD, "16")] + ([Value(CN, "")] + []) }

  ghost function ParallelStep(omp: bool, rest: seq<Step>): seq<Step> {
    if omp then [Flag(PL, None)] + rest else rest
  }

  ghost function LateSteps(vectorize: bool, vec: bool): seq<Step> {
    [if vectorize then Push(VEC) else Flag(VEC, None)]
    + (if vectorize || vec then VectorSteps(LastSteps()) else ScalarSteps(LastSteps()))
  }

  // All steps: they depend on the presence of three keys.
  ghost function Steps(sch: bool, omp: bool, vec: bool): seq<Step> {
    [Flag(DOUBLE, Some(SINGLE))] + ([Flag(SCH, None)] + ([Flag(OMP, None)]
    + ParallelStep(omp, LateSteps(sch || omp, vec))))
  }

  ghost function StepsFor(options: seq<string>): seq<Step> {
    Steps(Key(SCH) in options, Key(OMP) in options, Key(VEC) in options)
  }

  ghost function Canonical(options: seq<string>): seq<string> { Output(options, StepsFor(options)) }

  // Taking a key does not take another one.
  lemma TakeKeeps(s: seq<string>, step: Step, k: nat)
    requires k < 16 && k != step.at
    ensures Key(k) in Take(s, step).0 <==> Key(k) in s
  {
    KeysDistinct();
    hide Key;
    if !step.Push? && Key(step.at) in s {
      var i := First(s, Key(step.at));
      EraseKeeps(s, i, Key(k));
      var rest := Erase(s, i);
      if i < |rest| && rest[i] != Key(k) {
        EraseKeeps(rest, i, Key(k));
      }
    }
  }

  lemma EraseKeeps(s: seq<string>, i: nat, t: string)
    requires i < |s| && s[i] != t
    ensures t in Erase(s, i) <==> t in s
  {
    assert s == s[..i] + [s[i]] + s[i + 1..];
  }

  // ---- the program ----

  // One more step of the program.
  lemma Advance(done: seq<string>, s: seq<string>, step: Step, rest: seq<Step>)
    ensures done + Output(s, [step] + rest) == (done + Take(s, step).1) + Output(Take(s, step).0, rest)
  {
    assert ([step] + rest)[1..] == rest;
  }

  lemma KeyTexts()
    ensures Key(DOUBLE) == "-double" && Key(SINGLE) == "-single" && Key(SCH) == "-sch" && Key(OMP) == "-omp"
    ensures Key(PL) == "-pl" && Key(VEC) == "-vec" && Key(DFS) == "-dfs" && Key(VLS) == "-vls"
    ensures Key(FUN) == "-fun" && Key(G) == "-g" && Key(VS) == "-vs" && Key(LV) == "-lv"
    ensures Key(SCAL) == "-scal" && Key(INPL) == "-inpl" && Key(MCD) == "-mcd" && Key(CN) == "-cn"
  {
  }

  // addKeyIfExisting without a default key, as one step of the program
  method AddFlag(options0: seq<string>, newoptions0: seq<string>, key: string, ghost k: nat, ghost todo: seq<Step>)
    returns (options: seq<string>, newoptions: seq<string>)
    requires k < 16 && key == Key(k)
    ensures newoptions + Output(options, todo) == newoptions0 + Output(options0, [Flag(k, None)] + todo)
  {
    hide Output, Key, TakeFlag;
    Advance(newoptions0, options0, Flag(k, None), todo);
    var position, added;
    options, newoptions, position, added := AddKeyIfExisting(options0, newoptions0, key, "", 0);
  }

  // STEP 3 of the program, with -vec
  method AddVectorOptions(options0: seq<string>, newoptions0: seq<string>, ghost todo: seq<Step>)
    returns (options: seq<string>, newoptions: seq<string>)
    ensures newoptions + Output(options, todo) == newoptions0 + Output(options0, VectorSteps(todo))
  {
    hide Output, Key, Take;
    KeyTexts();
    ghost var vs := [Value(VS, "32")] + ([Value(LV, "0")] + todo);
    ghost var g := [Flag(G, None)] + vs;
    ghost var fun := [Flag(FUN, None)] + g;
    options, newoptions := AddFlag(options0, newoptions0, "-dfs", DFS, [Flag(VLS, None)] + fun);
    options, newoptions := AddFlag(options, newoptions, "-vls", VLS, fun);
    options, newoptions := AddFlag(options, newoptions, "-fun", FUN, g);
    options, newoptions := AddFlag(options, newoptions, "-g", G, vs);
    options, newoptions := AddVectorValues(options, newoptions, todo);
  }

  // The two options of -vec that have a value.
  method AddVectorValues(options0: seq<string>, newoptions0: seq<string>, ghost todo: seq<Step>)
    returns (options: seq<string>, newoptions: seq<string>)
    ensures newoptions + Output(options, todo)
      == newoptions0 + Output(options0, [Value(VS, "32")] + ([Value(LV, "0")] + todo))
  {
    hide Output, Key, TakeValue;
    KeyTexts();
    options, newoptions := options0, newoptions0;
    Advance(newoptions, options, Value(VS, "32"), [Value(LV, "0")] + todo);
    options, newoptions := AddKeyValueIfExisting(options, newoptions, "-vs", "32");
    Advance(newoptions, options, Value(LV, "0"), todo);
    options, newoptions := AddKeyValueIfExisting(options, newoptions, "-lv", "0");
  }

  // STEP 3 of the program, without -vec
  method AddScalarOptions(options0: seq<string>, newoptions0: seq<string>, ghost todo: seq<Step>)
    returns (options: seq<string>, newoptions: seq<string>)
    ensures newoptions + Output(options, todo) == newoptions0 + Output(options0, ScalarSteps(todo))
  {
    hide Output, Key, TakeFlag, TakeValue;
    KeyTexts();
    var position, added := 0, false;
    options, newoptions := options0, newoptions0;
    ghost var inpl := [Flag(INPL, None)] + todo;
    Advance(newoptions, options, Flag(SCAL, Some(SCAL)), inpl);
    options, newoptions, position, added := AddKeyIfExisting(options, newoptions, "-scal", "-scal", position);
    options, newoptions := AddFlag(options, newoptions, "-inpl", INPL, todo);
  }

  // STEPS 1 and 2 of the program
  method AddParallelOptions(options0: seq<string>)
    returns (options: seq<string>, newoptions: seq<string>, vectorize: bool)
    ensures vectorize <==> Key(SCH) in options0 || Key(OMP) in options0
    ensures Key(VEC) in options <==> Key(VEC) in options0
    ensures newoptions + Output(options, LateSteps(vectorize, Key(VEC) in options0)) == Canonical(options0)
  {
    hide Output, Key, TakeFlag, TakeValue, LateSteps;
    KeyTexts();
    options := options0;
    newoptions := [];
    vectorize := false;
    var position, added := 0, false;
    ghost var sch, omp, vec := Key(SCH) in options0, Key(OMP) in options0, Key(VEC) in options0;
    ghost var late := LateSteps(sch || omp, vec);
    ghost var pl := ParallelStep(omp, late);
    ghost var steps := [Flag(OMP, None)] + pl;

    Advance(newoptions, options, Flag(DOUBLE, Some(SINGLE)), [Flag(SCH, None)] + steps);
    TakeKeepsParallel(options, Flag(DOUBLE, Some(SINGLE)));
    options, newoptions, position, added := AddKeyIfExisting(options, newoptions, "-double", "-single", position);
    Advance(newoptions, options, Flag(SCH, None), steps);
    TakeKeepsParallel(options, Flag(SCH, None));
    options, newoptions, position, added := AddKeyIfExisting(options, newoptions, "-sch", "", position);
    if added {
      vectorize := true;
    }
    Advance(newoptions, options, Flag(OMP, None), pl);
    TakeKeepsParallel(options, Flag(OMP, None));
    options, newoptions, position, added := AddKeyIfExisting(options, newoptions, "-omp", "", position);
    if added {
      vectorize := true;
      Advance(newoptions, options, Flag(PL, None), late);
      TakeKeepsParallel(options, Flag(PL, None));
      options, newoptions, position, added := AddKeyIfExisting(options, newoptions, "-pl", "", position);
    }
  }

  lemma TakeKeepsParallel(s: seq<string>, step: Step)
    ensures step.at != SCH ==> (Key(SCH) in Take(s, step).0 <==> Key(SCH) in s)
    ensures step.at != OMP ==> (Key(OMP) in Take(s, step).0 <==> Key(OMP) in s)
    ensures step.at != VEC ==> (Key(VEC) in Take(s, step).0 <==> Key(VEC) in s)
  {
    hide Take, Key;
    if step.at != SCH { TakeKeeps(s, step, SCH); }
    if step.at != OMP { TakeKeeps(s, step, OMP); }
    if step.at != VEC { TakeKeeps(s, step, VEC); }
  }

  method ReorganizeCompilationOptionsAux(options0: seq<string>) returns (newoptions: seq<string>)
    ensures newoptions == Canonical(options0)
  {
    hide Output, Key, TakeFlag, TakeValue, Canonical, VectorSteps, ScalarSteps;
    KeyTexts();
    var options, vectorize;
    options, newoptions, vectorize := AddParallelOptions(options0);
    ghost var vec := Key(VEC) in options0;
    ghost var late := if vectorize || vec then VectorSteps(LastSteps()) else ScalarSteps(LastSteps());
    Advance(newoptions, options, if vectorize then Push(VEC) else Flag(VEC, None), late);
    var added, position := false, 0;
    if vectorize {
      newoptions := newoptions + ["-vec"];
    } else {
      options, newoptions, position, added := AddKeyIfExisting(options, newoptions, "-vec", "", position);
    }
    assert newoptions + Output(options, late) == Canonical(options0);
    if vectorize || added {
      options, newoptions := AddVectorOptions(options, newoptions, LastSteps());
    } else {
      options, newoptions := AddScalarOptions(options, newoptions, LastSteps());
    }
    Advance(newoptions, options, Value(MCD, "16"), [Value(CN, "")] + []);
    options, newoptions := AddKeyValueIfExisting(options, newoptions, "-mcd", "16");
    Advance(newoptions, options, Value(CN, ""), []);
    options, newoptions := AddKeyValueIfExisting(options, newoptions, "-cn", "");
    NoStepLeft(options);
  }

  lemma NoStepLeft(s: seq<string>)
    ensures Output(s, []) == []
  {
  }

  // ---- the output is in canonical form ----

  // A text without dash, or a key from `low` on.
  ghost predicate From(t: string, low: nat) {
    !IsDash(t) || exists k: nat :: low <= k < 16 && t == Key(k)
  }

  lemma TakeOutput(s: seq<string>, step: Step, t: string)
    requires step.at <= step.High() && (step.Value? ==> !IsDash(step.defaultValue)) && t in Take(s, step).1
    ensures From(t, step.at) && (!IsDash(t) || t == Key(step.at) || t == Key(step.High()))
  {
  }

  lemma {:induction false} OutputFrom(s: seq<string>, steps: seq<Step>, low: nat)
    requires Ordered(steps, low)
    ensures forall t :: t in Output(s, steps) ==> From(t, low)
    decreases |steps|
  {
    hide Take, Key;
    if steps != [] {
      OutputFrom(Take(s, steps[0]).0, steps[1..], steps[0].High() + 1);
      forall t | t in Take(s, steps[0]).1
        ensures From(t, low)
      {
        TakeOutput(s, steps[0], t);
      }
    }
  }

  // A key below `low` is not in the output of later steps.
  lemma NotInOutput(s: seq<string>, steps: seq<Step>, low: nat, k: nat)
    requires Ordered(steps, low) && k < low && k < 16
    ensures Key(k) !in Output(s, steps)
  {
    OutputFrom(s, steps, low);
    KeysDistinct();
    hide Key;
  }

  // ---- idempotence ----

  ghost predicate IsKeyBelow(t: string, low: nat) {
    exists k: nat :: k < low && k < 16 && t == Key(k)
  }

  // Tokens left by earlier steps: keys below `low`.
  ghost predicate Below(junk: seq<string>, low: nat) {
    forall i :: 0 <= i < |junk| ==> IsKeyBelow(junk[i], low)
  }

  lemma BelowMore(junk: seq<string>, low: nat, high: nat)
    requires Below(junk, low) && low <= high
    ensures Below(junk, high)
  {
    hide Key;
  }

  lemma BelowHasNoKey(junk: seq<string>, low: nat, k: nat)
    requires Below(junk, low) && low <= k < 16
    ensures Key(k) !in junk
  {
    KeysDistinct();
    hide Key;
  }

  lemma FirstAfter(junk: seq<string>, key: string, rest: seq<string>)
    requires key !in junk
    ensures First(junk + ([key] + rest), key) == |junk| && key in junk + ([key] + rest)
    ensures Erase(junk + ([key] + rest), |junk|) == junk + rest
  {
    var s := junk + ([key] + rest);
    assert s[|junk|] == key;
    assert forall j :: 0 <= j < |junk| ==> s[j] == junk[j];
    FirstIs(s, key, |junk|);
  }

  lemma {:induction false} FirstIs(s: seq<string>, key: string, i: nat)
    requires i < |s| && s[i] == key && forall j :: 0 <= j < i ==> s[j] != key
    ensures First(s, key) == i
  {
    if i > 0 {
      FirstIs(s[1..], key, i - 1);
    }
  }

  // A step, run again on the tokens that it added with later tokens behind them.
  lemma FlagAgain(junk: seq<string>, s: seq<string>, key: string, orElse: seq<string>, rest: seq<string>)
    requires key !in junk && key !in rest && (orElse == [key] || key !in orElse)
    ensures var added := TakeFlag(s, key, orElse).1;
      TakeFlag(junk + (added + rest), key, orElse) ==
        (if added == [key] then junk + rest else (junk + added) + rest, added)
  {
    var added := TakeFlag(s, key, orElse).1;
    if added == [key] {
      FirstAfter(junk, key, rest);
    } else {
      assert junk + (added + rest) == (junk + added) + rest;
    }
  }

  lemma ValueAgain(junk: seq<string>, s: seq<string>, key: string, v: string, rest: seq<string>)
    requires key !in junk && key !in rest && !IsDash(v)
    ensures var added := TakeValue(s, key, v).1;
      TakeValue(junk + (added + rest), key, v) == (junk + rest, added)
  {
    var added := TakeValue(s, key, v).1;
    if added == [] {
      assert junk + (added + rest) == junk + rest;
    } else {
      var value := added[1];
      assert added + rest == [key] + ([value] + rest);
      FirstAfter(junk, key, [value] + rest);
      var left := junk + ([value] + rest);
      assert left[|junk|] == value && Erase(left, |junk|) == junk + rest;
    }
  }

  lemma TakeAgain(junk: seq<string>, s: seq<string>, step: Step, rest: seq<string>) returns (junk': seq<string>)
    requires step.at <= step.High() && (step.Value? ==> !IsDash(step.defaultValue))
    requires Below(junk, step.at) && Key(step.at) !in rest
    ensures Below(junk', step.High() + 1)
    ensures Take(junk + (Take(s, step).1 + rest), step) == (junk' + rest, Take(s, step).1)
  {
    KeysDistinct();
    hide Key, TakeFlag, TakeValue, IsDash;
    BelowHasNoKey(junk, step.at, step.at);
    BelowMore(junk, step.at, step.High() + 1);
    var key, added := Key(step.at), Take(s, step).1;
    junk' := junk;
    match step
    case Push(_) =>
      junk' := junk + added;
      assert junk + (added + rest) == junk' + rest;
    case Value(_, v) =>
      ValueAgain(junk, s, key, v, rest);
    case Flag(_, orElse) =>
      FlagAgain(junk, s, key, if orElse.Some? then [Key(orElse.value)] else [], rest);
      if added != [key] {
        TakeOutputs(s, step);
        junk' := junk + added;
      }
  }

  lemma TakeOutputs(s: seq<string>, step: Step)
    requires step.at <= step.High() && (step.Flag? || step.Push?)
    ensures Below(Take(s, step).1, step.High() + 1)
  {
  }

  lemma {:induction false} OutputAgain(junk: seq<string>, s: seq<string>, steps: seq<Step>, low: nat)
    requires Ordered(steps, low) && Below(junk, low)
    ensures Output(junk + Output(s, steps), steps) == Output(s, steps)
    decreases |steps|
  {
    hide Take, Key, IsDash;
    if steps != [] {
      var step, tail := steps[0], steps[1..];
      var rest := Output(Take(s, step).0, tail);
      NotInOutput(Take(s, step).0, tail, step.High() + 1, step.at);
      BelowMore(junk, low, step.at);
      var junk' := TakeAgain(junk, s, step, rest);
      OutputAgain(junk', Take(s, step).0, tail, step.High() + 1);
    }
  }

  lemma LastOrdered()
    ensures Ordered(LastSteps(), 14)
  {
    OrderedCons(Value(CN, ""), [], 15);
    OrderedCons(Value(MCD, "16"), [Value(CN, "")] + [], 14);
  }

  lemma VectorOrdered(rest: seq<Step>)
    requires Ordered(rest, 12)
    ensures Ordered(VectorSteps(rest), 6)
  {
    assert !IsDash("32") && !IsDash("0");
    hide Ordered, IsDash;
    var lv := [Value(LV, "0")] + rest;
    var vs := [Value(VS, "32")] + lv;
    var g := [Flag(G, None)] + vs;
    var fun := [Flag(FUN, None)] + g;
    OrderedCons(Value(LV, "0"), rest, 11);
    OrderedCons(Value(VS, "32"), lv, 10);
    OrderedCons(Flag(G, None), vs, 9);
    OrderedCons(Flag(FUN, None), g, 8);
    OrderedCons(Flag(VLS, None), fun, 7);
    OrderedCons(Flag(DFS, None), [Flag(VLS, None)] + fun, 6);
  }

  lemma ScalarOrdered(rest: seq<Step>)
    requires Ordered(rest, 14)
    ensures Ordered(ScalarSteps(rest), 6)
  {
    OrderedCons(Flag(INPL, None), rest, 13);
    OrderedCons(Flag(SCAL, Some(SCAL)), [Flag(INPL, None)] + rest, 6);
  }

  lemma StepsOrdered(sch: bool, omp: bool, vec: bool)
    ensures Ordered(Steps(sch, omp, vec), 0)
  {
    var last := LastSteps();
    LastOrdered();
    OrderedFrom(last, 14, 12);
    VectorOrdered(last);
    ScalarOrdered(last);
    var vectorize := sch || omp;
    var late := LateSteps(vectorize, vec);
    hide Ordered, VectorSteps, ScalarSteps;
    OrderedCons(if vectorize then Push(VEC) else Flag(VEC, None),
                if vectorize || vec then VectorSteps(last) else ScalarSteps(last), 5);
    OrderedFrom(late, 5, 4);
    OrderedCons(Flag(PL, None), late, 4);
    var pl := ParallelStep(omp, late);
    OrderedCons(Flag(OMP, None), pl, 3);
    OrderedCons(Flag(SCH, None), [Flag(OMP, None)] + pl, 2);
    OrderedCons(Flag(DOUBLE, Some(SINGLE)), [Flag(SCH, None)] + ([Flag(OMP, None)] + pl), 0);
  }

  lemma OrderedFrom(steps: seq<Step>, low: nat, lower: nat)
    requires Ordered(steps, low) && lower <= low
    ensures Ordered(steps, lower)
  {
  }

  lemma OrderedCons(step: Step, rest: seq<Step>, low: nat)
    requires low <= step.at <= step.High() && (step.Value? ==> !IsDash(step.defaultValue))
    requires Ordered(rest, step.High() + 1)
    ensures Ordered([step] + rest, low)
  {
    assert ([step] + rest)[1..] == rest;
  }

  // A key that only counts by its presence is in the output if and only if it was given.
  lemma {:induction false} FlagInOutput(s: seq<string>, steps: seq<Step>, low: nat, i: nat)
    requires Ordered(steps, low) && i < |steps| && steps[i].Flag? && steps[i].orElse.None?
    ensures Key(steps[i].at) in Output(s, steps) <==> Key(steps[i].at) in s
    decreases i
  {
    var step, tail := steps[0], steps[1..];
    var key := Key(steps[i].at);
    if i == 0 {
      NotInOutput(Take(s, step).0, tail, step.High() + 1, step.at);
    } else {
      AboveHead(steps, low, i);
      TakeKeeps(s, step, steps[i].at);
      FlagInOutput(Take(s, step).0, tail, step.High() + 1, i - 1);
      KeysDistinct();
      hide Key, Take;
      if key in Take(s, step).1 {
        TakeOutput(s, step, key);
      }
    }
  }

  lemma {:induction false} AboveHead(steps: seq<Step>, low: nat, i: nat)
    requires Ordered(steps, low) && 0 < i < |steps|
    ensures steps[0].at <= steps[0].High() < steps[i].at
    decreases i
  {
    if i > 1 {
      AboveHead(steps[1..], steps[0].High() + 1, i - 1);
    }
  }

  lemma SameSteps(options: seq<string>)
    ensures StepsFor(Canonical(options)) == StepsFor(options)
  {
    var sch, omp, vec := Key(SCH) in options, Key(OMP) in options, Key(VEC) in options;
    var steps := Steps(sch, omp, vec);
    StepsOrdered(sch, omp, vec);
    assert steps[1] == Flag(SCH, None) && steps[2] == Flag(OMP, None);
    FlagInOutput(options, steps, 0, 1);
    FlagInOutput(options, steps, 0, 2);
    if !sch && !omp {
      assert steps[3] == Flag(VEC, None);
      FlagInOutput(options, steps, 0, 3);
    }
  }

  // The output is a canonical form: reorganizing it changes nothing.
  lemma Idempotent(options: seq<string>)
    ensures Canonical(Canonical(options)) == Canonical(options)
  {
    StepsOrdered(Key(SCH) in options, Key(OMP) in options, Key(VEC) in options);
    SameSteps(options);
    OutputAgain([], options, StepsFor(options), 0);
    assert [] + Canonical(options) == Canonical(options);
  }

  // ---- the shape of the canonical form ----

  // What one step adds is all that the output has of its keys.
  lemma {:induction false} OutputOfStep(s: seq<string>, steps: seq<Step>, low: nat, i: nat, k: nat)
    requires Ordered(steps, low) && i < |steps| && !steps[i].Value?
    requires steps[i].at <= k <= steps[i].High() && k < 16
    ensures multiset(Output(s, steps))[Key(k)] == multiset(Take(s, steps[i]).1)[Key(k)]
    decreases i
  {
    hide Key, Take, Output;
    var step, tail := steps[0], steps[1..];
    var left := Take(s, step).0;
    OutputSplit(s, steps, Key(k));
    if i == 0 {
      NotInOutput(left, tail, step.High() + 1, k);
    } else {
      AboveHead(steps, low, i);
      SameTake(s, step, steps[i]);
      OutputOfStep(left, tail, step.High() + 1, i - 1, k);
      NotOfStep(s, step, k);
    }
  }

  lemma OutputSplit(s: seq<string>, steps: seq<Step>, t: string)
    requires steps != []
    ensures multiset(Output(s, steps))[t]
         == multiset(Take(s, steps[0]).1)[t] + multiset(Output(Take(s, steps[0]).0, steps[1..]))[t]
  {
    hide Take;
    assert Output(s, steps) == Take(s, steps[0]).1 + Output(Take(s, steps[0]).0, steps[1..]);
  }

  // A step adds the same after a step of another key.
  lemma SameTake(s: seq<string>, step: Step, later: Step)
    requires step.at != later.at && !later.Value?
    ensures Take(Take(s, step).0, later).1 == Take(s, later).1
  {
    TakeKeeps(s, step, later.at);
    hide Key;
  }

  lemma NotOfStep(s: seq<string>, step: Step, k: nat)
    requires step.at <= step.High() < k < 16 && (step.Value? ==> !IsDash(step.defaultValue))
    ensures multiset(Take(s, step).1)[Key(k)] == 0
  {
    KeysDistinct();
    hide Key, Take;
    if Key(k) in Take(s, step).1 {
      TakeOutput(s, step, Key(k));
    }
  }

  // A key that no step is about is not in the output.
  lemma {:induction false} OutputOfNoStep(s: seq<string>, steps: seq<Step>, low: nat, k: nat)
    requires Ordered(steps, low) && k < 16
    requires forall i :: 0 <= i < |steps| ==> steps[i].at != k && steps[i].High() != k
    ensures Key(k) !in Output(s, steps)
    decreases |steps|
  {
    KeysDistinct();
    hide Key, Take;
    if steps != [] {
      OutputOfNoStep(Take(s, steps[0]).0, steps[1..], steps[0].High() + 1, k);
      if Key(k) in Take(s, steps[0]).1 {
        TakeOutput(s, steps[0], Key(k));
      }
    }
  }

  predicate HasValue(k: nat) { k == VS || k == LV || k == MCD || k == CN }

  ghost predicate Typed(step: Step) { (step.Value? <==> HasValue(step.at)) && (HasValue(step.High()) ==> step.Value?) }

  ghost predicate ValuesFollow(s: seq<string>) {
    forall i, k :: 0 <= i < |s| && 0 <= k < 16 && HasValue(k) && s[i] == Key(k) ==>
      i + 1 < |s| && !IsDash(s[i + 1])
  }

  lemma ValuesFollowAppend(s: seq<string>, t: seq<string>)
    requires ValuesFollow(s) && ValuesFollow(t)
    ensures ValuesFollow(s + t)
  {
  }

  lemma TakeValuesFollow(s: seq<string>, step: Step)
    requires step.at <= step.High() && (step.Value? ==> !IsDash(step.defaultValue)) && Typed(step)
    ensures ValuesFollow(Take(s, step).1)
  {
    KeysDistinct();
    hide Key;
  }

  lemma {:induction false} OutputValuesFollow(s: seq<string>, steps: seq<Step>, low: nat)
    requires Ordered(steps, low) && forall i :: 0 <= i < |steps| ==> Typed(steps[i])
    ensures ValuesFollow(Output(s, steps))
    decreases |steps|
  {
    hide Take, Key, Typed, ValuesFollow;
    if steps == [] {
      assert ValuesFollow([]) by { NoValue(); }
    } else {
      TakeValuesFollow(s, steps[0]);
      OutputValuesFollow(Take(s, steps[0]).0, steps[1..], steps[0].High() + 1);
      ValuesFollowAppend(Take(s, steps[0]).1, Output(Take(s, steps[0]).0, steps[1..]));
    }
  }

  lemma NoValue()
    ensures ValuesFollow([])
  {
  }

  // Well-typed steps, without -scal if asked so.
  ghost predicate Fine(steps: seq<Step>, scal: bool) {
    forall i :: 0 <= i < |steps| ==>
      Typed(steps[i]) && (!scal ==> steps[i].at != SCAL && steps[i].High() != SCAL)
  }

  lemma FineCons(step: Step, rest: seq<Step>, scal: bool)
    requires Typed(step) && (!scal ==> step.at != SCAL && step.High() != SCAL) && Fine(rest, scal)
    ensures Fine([step] + rest, scal)
  {
  }

  lemma LastFine(scal: bool)
    ensures Fine(LastSteps(), scal)
  {
    FineCons(Value(CN, ""), [], scal);
    FineCons(Value(MCD, "16"), [Value(CN, "")] + [], scal);
  }

  lemma VectorFine(rest: seq<Step>)
    requires Fine(rest, false)
    ensures Fine(VectorSteps(rest), false)
  {
    hide Fine;
    var lv := [Value(LV, "0")] + rest;
    var vs := [Value(VS, "32")] + lv;
    var g := [Flag(G, None)] + vs;
    var fun := [Flag(FUN, None)] + g;
    FineCons(Value(LV, "0"), rest, false);
    FineCons(Value(VS, "32"), lv, false);
    FineCons(Flag(G, None), vs, false);
    FineCons(Flag(FUN, None), g, false);
    FineCons(Flag(VLS, None), fun, false);
    FineCons(Flag(DFS, None), [Flag(VLS, None)] + fun, false);
  }

  lemma ScalarFine(rest: seq<Step>)
    requires Fine(rest, true)
    ensures Fine(ScalarSteps(rest), true)
  {
    hide Fine;
    FineCons(Flag(INPL, None), rest, true);
    FineCons(Flag(SCAL, Some(SCAL)), [Flag(INPL, None)] + rest, true);
  }

  lemma StepsFine(sch: bool, omp: bool, vec: bool)
    ensures Fine(Steps(sch, omp, vec), !(sch || omp || vec))
  {
    var last, scal := LastSteps(), !(sch || omp || vec);
    LastFine(true);
    LastFine(false);
    VectorFine(last);
    ScalarFine(last);
    hide Fine, VectorSteps, ScalarSteps;
    var late := LateSteps(sch || omp, vec);
    FineCons(if sch || omp then Push(VEC) else Flag(VEC, None),
             if sch || omp || vec then VectorSteps(last) else ScalarSteps(last), scal);
    FineCons(Flag(PL, None), late, scal);
    var pl := ParallelStep(omp, late);
    FineCons(Flag(OMP, None), pl, scal);
    FineCons(Flag(SCH, None), [Flag(OMP, None)] + pl, scal);
    FineCons(Flag(DOUBLE, Some(SINGLE)), [Flag(SCH, None)] + ([Flag(OMP, None)] + pl), scal);
  }

  // Where some of the steps are.
  lemma StepsAt(sch: bool, omp: bool, vec: bool)
    ensures var steps := Steps(sch, omp, vec);
      && |steps| > (if omp then 4 else 3) && steps[0] == Flag(DOUBLE, Some(SINGLE))
      && steps[if omp then 4 else 3] == (if sch || omp then Push(VEC) else Flag(VEC, None))
      && (!sch && !omp && !vec ==> |steps| > 4 && steps[4] == Flag(SCAL, Some(SCAL)))
  {
    hide VectorSteps;
  }

  lemma Precision(options: seq<string>)
    ensures var out := multiset(Canonical(options));
      out[Key(DOUBLE)] + out[Key(SINGLE)] == 1 && (Key(DOUBLE) in out <==> Key(DOUBLE) in options)
  {
    var sch, omp, vec := Key(SCH) in options, Key(OMP) in options, Key(VEC) in options;
    var steps := StepsFor(options);
    StepsOrdered(sch, omp, vec);
    StepsAt(sch, omp, vec);
    KeysDistinct();
    hide Steps, Output, Ordered, Key;
    OutputOfStep(options, steps, 0, 0, DOUBLE);
    OutputOfStep(options, steps, 0, 0, SINGLE);
  }

  lemma VecAdded(s: seq<string>, step: Step)
    requires step == Push(VEC) || step == Flag(VEC, None)
    ensures multiset(Take(s, step).1)[Key(VEC)] == if step.Push? || Key(VEC) in s then 1 else 0
  {
    hide Key;
  }

  lemma ScalAdded(s: seq<string>)
    ensures multiset(Take(s, Flag(SCAL, Some(SCAL))).1)[Key(SCAL)] == 1
  {
    hide Key;
  }

  lemma VecLoops(options: seq<string>)
    ensures multiset(Canonical(options))[Key(VEC)]
         == if Key(SCH) in options || Key(OMP) in options || Key(VEC) in options then 1 else 0
  {
    var sch, omp, vec := Key(SCH) in options, Key(OMP) in options, Key(VEC) in options;
    var steps := StepsFor(options);
    var at := if omp then 4 else 3;
    StepsOrdered(sch, omp, vec);
    StepsAt(sch, omp, vec);
    VecAdded(options, steps[at]);
    hide Steps, Output, Ordered, Key, Take;
    OutputOfStep(options, steps, 0, at, VEC);
  }

  lemma ScalLoops(options: seq<string>)
    ensures multiset(Canonical(options))[Key(SCAL)]
         == if Key(SCH) in options || Key(OMP) in options || Key(VEC) in options then 0 else 1
  {
    var sch, omp, vec := Key(SCH) in options, Key(OMP) in options, Key(VEC) in options;
    var steps := StepsFor(options);
    StepsOrdered(sch, omp, vec);
    StepsAt(sch, omp, vec);
    StepsFine(sch, omp, vec);
    ScalAdded(options);
    hide Steps, Output, Ordered, Key, Take, Typed;
    if sch || omp || vec {
      OutputOfNoStep(options, steps, 0, SCAL);
    } else {
      OutputOfStep(options, steps, 0, 4, SCAL);
    }
  }

  // One of -double and -single, one of -vec and -scal, each of them when the program says so, and
  // a value behind every key that has one.
  lemma CanonicalShape(options: seq<string>)
    ensures var out := multiset(Canonical(options));
      && out["-double"] + out["-single"] == 1 && ("-double" in out <==> "-double" in options)
      && out["-vec"] + out["-scal"] == 1
      && ("-vec" in out <==> "-sch" in options || "-omp" in options || "-vec" in options)
    ensures ValuesFollow(Canonical(options))
  {
    KeyTexts();
    Precision(options);
    VecLoops(options);
    ScalLoops(options);
    var sch, omp, vec := Key(SCH) in options, Key(OMP) in options, Key(VEC) in options;
    StepsOrdered(sch, omp, vec);
    StepsFine(sch, omp, vec);
    hide Key, Steps, Ordered, Typed;
    OutputValuesFollow(options, StepsFor(options), 0);
  }
}
