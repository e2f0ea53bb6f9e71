// The canonical form in one piece: which options it has, in which order, and with which values, for
// every list of options that reorganizeCompilationOptionsAux of src/Utilities/utilities.cpp is given.
module OptionForm {
  import opened Options
  import opened OptionCanon

  predicate IsKey(t: string) { t in KEYS }

  // A key with its value, if it was given: the text behind its first occurrence, when that is no dash;
  // the default value, when nothing or a dash that is no key stands there.
  ghost predicate ValueOf(pair: seq<string>, s: seq<string>, key: string, orElse: string) {
    if key !in s then pair == []
    else
      var i := First(s, key);
      && |pair| == 2 && pair[0] == key && !IsDash(pair[1]) && (pair[1] == orElse || pair[1] in s)
      && (i + 1 < |s| && !IsDash(s[i + 1]) ==> pair[1] == s[i + 1])
      && (i + 1 == |s| || (IsDash(s[i + 1]) && !IsKey(s[i + 1])) ==> pair[1] == orElse)
  }

  function If(s: seq<string>, key: string): seq<string> { if key in s then [key] else [] }

  ghost predicate Vectorised(s: seq<string>) { "-sch" in s || "-omp" in s || "-vec" in s }

  // The canonical form of s
  ghost predicate Form(s: seq<string>, out: seq<string>) {
    exists vs, lv, mcd, cn :: Filled(s, out, vs, lv, mcd, cn)
  }

  ghost predicate Filled(s: seq<string>, out: seq<string>, vs: seq<string>, lv: seq<string>,
                         mcd: seq<string>, cn: seq<string>) {
    && ValueOf(vs, s, "-vs", "32") && ValueOf(lv, s, "-lv", "0")
    && ValueOf(mcd, s, "-mcd", "16") && ValueOf(cn, s, "-cn", "")
    && out == [if "-double" in s then "-double" else "-single"] + If(s, "-sch") + If(s, "-omp")
         + (if "-omp" in s then If(s, "-pl") else [])
         + (if Vectorised(s)
            then ["-vec"] + If(s, "-dfs") + If(s, "-vls") + If(s, "-fun") + If(s, "-g") + vs + lv
            else ["-scal"] + If(s, "-inpl"))
         + mcd + cn
  }

  // ---- what stands behind a key stays there while other keys are taken ----

  // Erasing another text than the first occurrence of the key, and than the text behind it
  lemma EraseBeside(s: seq<string>, j: nat, key: string)
    requires key in s && j < |s| && s[j] != key && j != First(s, key) + 1
    ensures
      var i, t := First(s, key), Erase(s, j);
      var i' := if j < i then i - 1 else i;
      && First(t, key) == i' && (i' + 1 == |t| <==> i + 1 == |s|) && (i + 1 < |s| ==> t[i' + 1] == s[i + 1])
  {
    hide First, Erase;
    ErasedAt(s, j);
    var i, t := First(s, key), Erase(s, j);
    var i' := if j < i then i - 1 else i;
    FirstIs(t, key, i');
  }

  lemma ErasedAt(s: seq<string>, j: nat)
    requires j < |s|
    ensures |Erase(s, j)| == |s| - 1
    ensures forall k :: 0 <= k < |s| - 1 ==> Erase(s, j)[k] == s[if k < j then k else k + 1]
  {
  }

  // A step about another key
  lemma NextKept(s: seq<string>, step: Step, key: string)
    requires IsKey(key) && Key(step.at) != key && key in s
    requires First(s, key) + 1 == |s| || !IsKey(s[First(s, key) + 1])
    ensures
      var t := Take(s, step).0;
      var i, i' := First(s, key), First(t, key);
      && key in t && (i' + 1 == |t| <==> i + 1 == |s|) && (i + 1 < |s| ==> t[i' + 1] == s[i + 1])
  {
    KeysAreKeys();
    hide Key, First, Erase;
    var k := Key(step.at);
    if !step.Push? && k in s {
      var j := First(s, k);
      EraseBeside(s, j, key);
      InErased(s, j, key);
      var rest := Erase(s, j);
      if step.Value? && j < |rest| && !IsDash(rest[j]) {
        NotBehind(s, j, key);
        EraseBeside(rest, j, key);
        InErased(rest, j, key);
      }
    }
  }

  lemma InErased(s: seq<string>, j: nat, key: string)
    requires key in s && j < |s| && s[j] != key
    ensures key in Erase(s, j)
  {
    EraseKeeps(s, j, key);
  }

  // What a value step erases behind its key is not what stands behind another key.
  lemma NotBehind(s: seq<string>, j: nat, key: string)
    requires key in s && j < |s| && s[j] != key && j != First(s, key) + 1
    requires IsDash(key) && j < |Erase(s, j)| && !IsDash(Erase(s, j)[j])
    ensures Erase(s, j)[j] != key && j != First(Erase(s, j), key) + 1
  {
    EraseBeside(s, j, key);
    assert Erase(s, j)[j] == s[j + 1];
    var i := First(s, key);
    if j < i {
      assert j + 1 != i;
    }
  }

  lemma KeysAreKeys()
    ensures forall t :: IsKey(t) <==> exists k: nat :: k < 16 && t == Key(k)
    ensures forall t :: IsKey(t) ==> IsDash(t)
  {
    KeysDistinct();
    forall t ensures IsKey(t) <==> exists k: nat :: k < 16 && t == Key(k) {
      if IsKey(t) {
        var k: nat :| k < |KEYS| && KEYS[k] == t;
        assert t == Key(k);
      }
      if k: nat :| k < 16 && t == Key(k) {
        assert KEYS[k] == t;
      }
    }
  }

  lemma TakeLess(s: seq<string>, step: Step)
    ensures forall t :: t in Take(s, step).0 ==> t in s
  {
    hide Key, First;
  }

  lemma ValueOfKept(pair: seq<string>, s: seq<string>, step: Step, k: nat, orElse: string)
    requires k < 16 && k != step.at && ValueOf(pair, Take(s, step).0, Key(k), orElse)
    ensures ValueOf(pair, s, Key(k), orElse)
  {
    KeysDistinct();
    KeysAreKeys();
    TakeKeeps(s, step, k);
    TakeLess(s, step);
    var key := Key(k);
    if key in s && (First(s, key) + 1 == |s| || !IsKey(s[First(s, key) + 1])) {
      NextKept(s, step, key);
    }
    hide Key, First, Take, IsDash;
  }

  lemma ValueTaken(s: seq<string>, key: string, orElse: string)
    requires !IsDash(orElse)
    ensures ValueOf(TakeValue(s, key, orElse).1, s, key, orElse)
  {
    if key in s {
      hide First, Erase;
      var i := First(s, key);
      ErasedAt(s, i);
    }
  }

  // ---- what each step adds, in terms of the options that were given ----

  ghost predicate Adds(base: seq<string>, step: Step, added: seq<string>) {
    match step
    case Flag(at, orElse) =>
      added == if Key(at) in base then [Key(at)] else if orElse.Some? then [Key(orElse.value)] else []
    case Value(at, v) => ValueOf(added, base, Key(at), v)
    case Push(at) => added == [Key(at)]
  }

  ghost predicate Forms(base: seq<string>, steps: seq<Step>, out: seq<string>)
    decreases |steps|
  {
    if steps == [] then out == []
    else
      exists n: nat :: n <= |out| && Adds(base, steps[0], out[..n]) && Forms(base, steps[1..], out[n..])
  }

  lemma AddsKept(s: seq<string>, step: Step, later: Step, added: seq<string>)
    requires later.at != step.at && Adds(Take(s, step).0, later, added)
    ensures Adds(s, later, added)
  {
    hide Key, Take, ValueOf;
    TakeKeeps(s, step, later.at);
    if later.Value? {
      ValueOfKept(added, s, step, later.at, later.defaultValue);
    }
  }

  lemma {:induction false} FormsKept(s: seq<string>, step: Step, steps: seq<Step>, low: nat, out: seq<string>)
    requires Ordered(steps, low) && step.at < low && Forms(Take(s, step).0, steps, out)
    ensures Forms(s, steps, out)
    decreases |steps|
  {
    hide Adds, Take;
    if steps != [] {
      var n: nat :| n <= |out| && Adds(Take(s, step).0, steps[0], out[..n])
                    && Forms(Take(s, step).0, steps[1..], out[n..]);
      AddsKept(s, step, steps[0], out[..n]);
      FormsKept(s, step, steps[1..], steps[0].High() + 1, out[n..]);
    }
  }

  lemma {:induction false} OutputForms(s: seq<string>, steps: seq<Step>, low: nat)
    requires Ordered(steps, low)
    ensures Forms(s, steps, Output(s, steps))
    decreases |steps|
  {
    hide Adds, Take;
    if steps != [] {
      var next, added := Take(s, steps[0]).0, Take(s, steps[0]).1;
      OutputForms(next, steps[1..], steps[0].High() + 1);
      FormsKept(s, steps[0], steps[1..], steps[0].High() + 1, Output(next, steps[1..]));
      StepAdds(s, steps[0]);
      var out := added + Output(next, steps[1..]);
      assert out[..|added|] == added && out[|added|..] == Output(next, steps[1..]);
    }
  }

  lemma StepAdds(s: seq<string>, step: Step)
    requires step.Value? ==> !IsDash(step.defaultValue)
    ensures Adds(s, step, Take(s, step).1)
  {
    if step.Value? {
      ValueTaken(s, Key(step.at), step.defaultValue);
    }
  }

  // ---- the steps in their order ----

  lemma Peel(base: seq<string>, step: Step, rest: seq<Step>, out: seq<string>)
    returns (added: seq<string>, more: seq<string>)
    requires Forms(base, [step] + rest, out)
    ensures out == added + more && Adds(base, step, added) && Forms(base, rest, more)
  {
    hide Adds;
    assert ([step] + rest)[1..] == rest;
    var n: nat :| n <= |out| && Adds(base, step, out[..n]) && Forms(base, rest, out[n..]);
    added, more := out[..n], out[n..];
  }

  lemma PeelFlag(base: seq<string>, k: nat, rest: seq<Step>, out: seq<string>) returns (more: seq<string>)
    requires k < 16 && Forms(base, [Flag(k, None)] + rest, out)
    ensures out == If(base, Key(k)) + more && Forms(base, rest, more)
  {
    hide Forms, Key;
    var added;
    added, more := Peel(base, Flag(k, None), rest, out);
  }

  lemma VectorForm(base: seq<string>, rest: seq<Step>, out: seq<string>)
    returns (vs: seq<string>, lv: seq<string>, more: seq<string>)
    requires Forms(base, VectorSteps(rest), out)
    ensures ValueOf(vs, base, Key(VS), "32") && ValueOf(lv, base, Key(LV), "0") && Forms(base, rest, more)
    ensures out
      == If(base, Key(DFS)) + (If(base, Key(VLS)) + (If(base, Key(FUN)) + (If(base, Key(G)) + (vs + (lv + more)))))
  {
    hide Forms, Key, If, ValueOf;
    var values := [Value(VS, "32")] + ([Value(LV, "0")] + rest);
    var g := [Flag(G, None)] + values;
    var fun := [Flag(FUN, None)] + g;
    var o1 := PeelFlag(base, DFS, [Flag(VLS, None)] + fun, out);
    var o2 := PeelFlag(base, VLS, fun, o1);
    var o3 := PeelFlag(base, FUN, g, o2);
    var o4 := PeelFlag(base, G, values, o3);
    var o5;
    vs, o5 := Peel(base, Value(VS, "32"), [Value(LV, "0")] + rest, o4);
    lv, more := Peel(base, Value(LV, "0"), rest, o5);
  }

  lemma ScalarForm(base: seq<string>, rest: seq<Step>, out: seq<string>) returns (more: seq<string>)
    requires Forms(base, ScalarSteps(rest), out)
    ensures out == [Key(SCAL)] + (If(base, Key(INPL)) + more) && Forms(base, rest, more)
  {
    hide Forms, Key;
    var added, o1 := Peel(base, Flag(SCAL, Some(SCAL)), [Flag(INPL, None)] + rest, out);
    more := PeelFlag(base, INPL, rest, o1);
  }

  lemma LastForm(base: seq<string>, out: seq<string>) returns (mcd: seq<string>, cn: seq<string>)
    requires Forms(base, LastSteps(), out)
    ensures ValueOf(mcd, base, Key(MCD), "16") && ValueOf(cn, base, Key(CN), "") && out == mcd + cn
  {
    var o1, o2;
    mcd, o1 := Peel(base, Value(MCD, "16"), [Value(CN, "")] + [], out);
    cn, o2 := Peel(base, Value(CN, ""), [], o1);
    hide Key, ValueOf;
    assert o2 == [];
  }

  lemma LateForm(base: seq<string>, vectorize: bool, vec: bool, out: seq<string>)
    returns (vs: seq<string>, lv: seq<string>, mcd: seq<string>, cn: seq<string>)
    requires vec == (Key(VEC) in base) && Forms(base, LateSteps(vectorize, vec), out)
    ensures ValueOf(vs, base, Key(VS), "32") && ValueOf(lv, base, Key(LV), "0")
    ensures ValueOf(mcd, base, Key(MCD), "16") && ValueOf(cn, base, Key(CN), "")
    ensures out == (
        if vectorize || vec then
          [Key(VEC)] + (If(base, Key(DFS)) + (If(base, Key(VLS)) + (If(base, Key(FUN))
          + (If(base, Key(G)) + (vs + lv)))))
        else [Key(SCAL)] + If(base, Key(INPL))) + (mcd + cn)
  {
    hide Forms, Key, If, ValueOf, VectorSteps, ScalarSteps, LastSteps;
    var late := if vectorize || vec then VectorSteps(LastSteps()) else ScalarSteps(LastSteps());
    var first, o1 := Peel(base, if vectorize then Push(VEC) else Flag(VEC, None), late, out);
    assert first == if vectorize || vec then [Key(VEC)] else [];
    var o2;
    if vectorize || vec {
      vs, lv, o2 := VectorForm(base, LastSteps(), o1);
    } else {
      o2 := ScalarForm(base, LastSteps(), o1);
      vs := AnyValue(base, VS, "32");
      lv := AnyValue(base, LV, "0");
    }
    mcd, cn := LastForm(base, o2);
    if vectorize || vec {
      Regroup(If(base, Key(DFS)), If(base, Key(VLS)), If(base, Key(FUN)), If(base, Key(G)), vs, lv, mcd + cn);
    }
  }

  lemma Regroup(a: seq<string>, b: seq<string>, c: seq<string>, d: seq<string>, e: seq<string>, f: seq<string>,
                g: seq<string>)
    ensures a + (b + (c + (d + (e + (f + g))))) == (a + (b + (c + (d + (e + f))))) + g
  {
  }

  // Some value of a key, for the keys that are not looked for
  lemma AnyValue(base: seq<string>, k: nat, orElse: string) returns (pair: seq<string>)
    requires k < 16 && !IsDash(orElse)
    ensures ValueOf(pair, base, Key(k), orElse)
  {
    ValueTaken(base, Key(k), orElse);
    pair := TakeValue(base, Key(k), orElse).1;
  }

  lemma ParallelForm(base: seq<string>, omp: bool, rest: seq<Step>, out: seq<string>) returns (more: seq<string>)
    requires Forms(base, ParallelStep(omp, rest), out)
    ensures out == (if omp then If(base, Key(PL)) else []) + more && Forms(base, rest, more)
  {
    hide Forms, Key, If;
    if omp {
      more := PeelFlag(base, PL, rest, out);
    } else {
      more := out;
    }
  }

  lemma FormParts(options: seq<string>)
    returns (o4: seq<string>, vs: seq<string>, lv: seq<string>, mcd: seq<string>, cn: seq<string>)
    ensures ValueOf(vs, options, Key(VS), "32") && ValueOf(lv, options, Key(LV), "0")
    ensures ValueOf(mcd, options, Key(MCD), "16") && ValueOf(cn, options, Key(CN), "")
    ensures Canonical(options) == [if Key(DOUBLE) in options then Key(DOUBLE) else Key(SINGLE)]
      + (If(options, Key(SCH)) + (If(options, Key(OMP))
      + ((if Key(OMP) in options then If(options, Key(PL)) else []) + o4)))
    ensures o4 == (
        if Key(SCH) in options || Key(OMP) in options || Key(VEC) in options then
          [Key(VEC)] + (If(options, Key(DFS)) + (If(options, Key(VLS)) + (If(options, Key(FUN))
          + (If(options, Key(G)) + (vs + lv)))))
        else [Key(SCAL)] + If(options, Key(INPL))) + (mcd + cn)
  {
    CanonicalForms(options);
    var sch, omp, vec := Key(SCH) in options, Key(OMP) in options, Key(VEC) in options;
    hide Forms, Key, If, ValueOf, LateSteps, Steps, Canonical;
    o4 := EarlyForm(options, sch, omp, vec, Canonical(options));
    vs, lv, mcd, cn := LateForm(options, sch || omp, vec, o4);
  }

  lemma CanonicalForms(options: seq<string>)
    ensures Forms(options, Steps(Key(SCH) in options, Key(OMP) in options, Key(VEC) in options), Canonical(options))
  {
    hide Forms, Key, Steps, Output;
    StepsOrdered(Key(SCH) in options, Key(OMP) in options, Key(VEC) in options);
    OutputForms(options, StepsFor(options), 0);
  }

  lemma EarlyForm(base: seq<string>, sch: bool, omp: bool, vec: bool, out: seq<string>) returns (more: seq<string>)
    requires Forms(base, Steps(sch, omp, vec), out)
    ensures out == [if Key(DOUBLE) in base then Key(DOUBLE) else Key(SINGLE)]
      + (If(base, Key(SCH)) + (If(base, Key(OMP)) + ((if omp then If(base, Key(PL)) else []) + more)))
    ensures Forms(base, LateSteps(sch || omp, vec), more)
  {
    hide Forms, Key, If, LateSteps, ParallelStep;
    var late := ParallelStep(omp, LateSteps(sch || omp, vec));
    var precision, o1 := Peel(base, Flag(DOUBLE, Some(SINGLE)), [Flag(SCH, None)] + ([Flag(OMP, None)] + late), out);
    var o2 := PeelFlag(base, SCH, [Flag(OMP, None)] + late, o1);
    var o3 := PeelFlag(base, OMP, late, o2);
    more := ParallelForm(base, omp, LateSteps(sch || omp, vec), o3);
  }

  // For all options: what the canonical form is, in its order.
  lemma CanonicalForm(options: seq<string>)
    ensures Form(options, Canonical(options))
  {
    hide Key, If, ValueOf, Canonical, Filled;
    KeyTexts();
    var late, vs, lv, mcd, cn := FormParts(options);
    var precision := [if "-double" in options then "-double" else "-single"];
    IsFilled(options, Canonical(options), precision, vs, lv, mcd, cn, late);
  }

  lemma IsFilled(s: seq<string>, out: seq<string>, precision: seq<string>, vs: seq<string>, lv: seq<string>,
                 mcd: seq<string>, cn: seq<string>, late: seq<string>)
    requires precision == [if "-double" in s then "-double" else "-single"]
    requires ValueOf(vs, s, "-vs", "32") && ValueOf(lv, s, "-lv", "0")
    requires ValueOf(mcd, s, "-mcd", "16") && ValueOf(cn, s, "-cn", "")
    requires late == (
        if Vectorised(s) then
          ["-vec"] + (If(s, "-dfs") + (If(s, "-vls") + (If(s, "-fun") + (If(s, "-g") + (vs + lv)))))
        else ["-scal"] + If(s, "-inpl")) + (mcd + cn)
    requires out == precision + (If(s, "-sch") + (If(s, "-omp") + ((if "-omp" in s then If(s, "-pl") else []) + late)))
    ensures Filled(s, out, vs, lv, mcd, cn)
  {
    hide If, ValueOf;
    var parallel := precision + If(s, "-sch") + If(s, "-omp") + (if "-omp" in s then If(s, "-pl") else []);
    assert out == parallel + late;
    var middle := if Vectorised(s)
      then ["-vec"] + If(s, "-dfs") + If(s, "-vls") + If(s, "-fun") + If(s, "-g") + vs + lv
      else ["-scal"] + If(s, "-inpl");
    assert late == middle + (mcd + cn);
    assert parallel + (middle + (mcd + cn)) == parallel + middle + mcd + cn;
  }
}
