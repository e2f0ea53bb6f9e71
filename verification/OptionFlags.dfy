// Where a flag without value may stand among the options: reorganizeCompilationOptionsAux of
// src/Utilities/utilities.cpp erases the flags that it finds, and takes the text that then follows a
// key for its value.
module OptionFlags {
  import opened Options
  import opened OptionCanon

  // Erasing a key from u + [t] + v erases it from u or from v, and t stays between the two.
  lemma EraseAround(u: seq<string>, t: string, v: seq<string>, key: string)
    returns (u': seq<string>, v': seq<string>)
    requires key != t && key in u + v
    ensures key in u + [t] + v
    ensures Erase(u + [t] + v, First(u + [t] + v, key)) == u' + [t] + v'
    ensures Erase(u + v, First(u + v, key)) == u' + v'
  {
    hide First, Erase;
    if key in u {
      FirstOfPrefix(u, v, key);
      FirstOfPrefix(u, [t] + v, key);
      u', v' := Erase(u, First(u, key)), v;
      assert u + ([t] + v) == u + [t] + v;
      assert u' + ([t] + v') == u' + [t] + v';
    } else {
      FirstOfSuffix(u, v, key);
      FirstOfSuffix(u + [t], v, key);
      u', v' := u, Erase(v, First(v, key));
    }
  }

  lemma EraseIn(s: seq<string>, i: nat, t: string)
    requires i < |s| && t !in s
    ensures t !in Erase(s, i)
  {
  }

  lemma EraseParts(u: seq<string>, v: seq<string>, i: nat)
    ensures i < |u| ==> Erase(u + v, i) == Erase(u, i) + v
    ensures i < |v| ==> Erase(u + v, |u| + i) == u + Erase(v, i)
  {
  }

  lemma FirstOfPrefix(u: seq<string>, v: seq<string>, key: string)
    requires key in u
    ensures First(u + v, key) == First(u, key)
    ensures Erase(u + v, First(u, key)) == Erase(u, First(u, key)) + v
  {
    var i := First(u, key);
    EraseParts(u, v, i);
    assert (u + v)[i] == key && forall j :: 0 <= j < i ==> (u + v)[j] == u[j];
    FirstIs(u + v, key, i);
  }

  lemma {:induction false} FirstOfSuffix(u: seq<string>, v: seq<string>, key: string)
    requires key !in u && key in v
    ensures First(u + v, key) == |u| + First(v, key)
    ensures Erase(u + v, |u| + First(v, key)) == u + Erase(v, First(v, key))
  {
    EraseParts(u, v, First(v, key));
    hide Erase;
    if u == [] {
      assert u + v == v;
    } else {
      assert (u + v)[1..] == u[1..] + v;
      FirstOfSuffix(u[1..], v, key);
    }
  }

  // A list with a flag t somewhere, and the same list with t somewhere else.
  ghost predicate Moved(s: seq<string>, s': seq<string>, t: string) {
    exists u, v, u', v' :: s == u + [t] + v && s' == u' + [t] + v' && u + v == u' + v' && t !in u + v
  }

  lemma MovedTake(s: seq<string>, s': seq<string>, t: string, key: string, orElse: seq<string>)
    requires Moved(s, s', t) && key != t
    ensures TakeFlag(s, key, orElse).1 == TakeFlag(s', key, orElse).1
    ensures Moved(TakeFlag(s, key, orElse).0, TakeFlag(s', key, orElse).0, t)
  {
    hide First, Erase;
    var u, v, u', v' :| s == u + [t] + v && s' == u' + [t] + v' && u + v == u' + v' && t !in u + v;
    assert key in s <==> key in u + v;
    assert key in s' <==> key in u' + v';
    if key in s {
      var a, b := EraseAround(u, t, v, key);
      var a', b' := EraseAround(u', t, v', key);
      EraseIn(u + v, First(u + v, key), t);
      assert a + b == a' + b' && t !in a + b;
    }
  }

  lemma FoundBetween(u: seq<string>, t: string, v: seq<string>, orElse: seq<string>)
    requires t !in u
    ensures TakeFlag(u + [t] + v, t, orElse) == (u + v, [t])
  {
    FirstAfter(u, t, v);
    assert u + ([t] + v) == u + [t] + v;
  }

  lemma MovedFound(s: seq<string>, s': seq<string>, t: string, orElse: seq<string>)
    requires Moved(s, s', t)
    ensures TakeFlag(s, t, orElse) == TakeFlag(s', t, orElse)
  {
    hide TakeFlag;
    var u, v, u', v' :| s == u + [t] + v && s' == u' + [t] + v' && u + v == u' + v' && t !in u + v;
    FoundBetween(u, t, v, orElse);
    FoundBetween(u', t, v', orElse);
  }

  lemma {:induction false} MovedFlag(s: seq<string>, s': seq<string>, steps: seq<Step>, p: nat)
    requires p < |steps| && steps[p].Flag? && Moved(s, s', Key(steps[p].at))
    requires forall q :: 0 <= q < p ==> !steps[q].Value? && steps[q].at != steps[p].at
    ensures Output(s, steps) == Output(s', steps)
    decreases p
  {
    var t, key := Key(steps[p].at), Key(steps[0].at);
    if p == 0 {
      MovedFound(s, s', t, if steps[0].orElse.Some? then [Key(steps[0].orElse.value)] else []);
    } else {
      KeysDistinct();
      hide Key, TakeFlag, Moved;
      if steps[0].Flag? {
        var orElse := steps[0].orElse;
        MovedTake(s, s', t, key, if orElse.Some? then [Key(orElse.value)] else []);
      }
      MovedFlag(Take(s, steps[0]).0, Take(s', steps[0]).0, steps[1..], p - 1);
    }
  }

  // The keys without value that the program looks for, with these options.
  ghost predicate LookedFor(options: seq<string>, f: nat) {
    IsLookedFor(Key(SCH) in options, Key(OMP) in options, Key(VEC) in options, f)
  }

  ghost predicate IsLookedFor(sch: bool, omp: bool, vec: bool, f: nat) {
    || f == DOUBLE || f == SCH || f == OMP
    || (f == PL && omp)
    || (f == VEC && !sch && !omp)
    || (DFS <= f <= G && (sch || omp || vec))
    || ((f == SCAL || f == INPL) && !sch && !omp && !vec)
  }

  ghost function PlaceOf(f: nat, omp: bool): nat {
    if f == DOUBLE then 0 else if f == SCH then 1 else if f == OMP then 2
    else if f == PL || f == VEC then 3
    else if f == SCAL then 4 else if f == INPL then 5
    else (if omp then 5 else 4) + (if f >= DFS then f - DFS else 0)
  }

  lemma StepOf(sch: bool, omp: bool, vec: bool, f: nat)
    requires IsLookedFor(sch, omp, vec, f)
    ensures var p := PlaceOf(f, omp);
      p < |Steps(sch, omp, vec)| && Steps(sch, omp, vec)[p].Flag? && Steps(sch, omp, vec)[p].at == f
  {
    var steps, late := Steps(sch, omp, vec), LateSteps(sch || omp, vec);
    LateAt(sch || omp, vec);
    EarlyAt(sch, omp, vec);
    hide Steps, LateSteps;
    var base := if omp then 4 else 3;
    if f >= VEC {
      var j := PlaceOf(f, omp) - base;
      assert 0 <= j < |late| && steps[base + j] == late[j];
    }
  }

  lemma EarlyAt(sch: bool, omp: bool, vec: bool)
    ensures var steps, late := Steps(sch, omp, vec), LateSteps(sch || omp, vec);
      && |steps| == (if omp then 4 else 3) + |late|
      && steps[0] == Flag(DOUBLE, Some(SINGLE)) && steps[1] == Flag(SCH, None) && steps[2] == Flag(OMP, None)
      && (omp ==> steps[3] == Flag(PL, None))
      && forall i :: 0 <= i < |late| ==> steps[(if omp then 4 else 3) + i] == late[i]
  {
    hide LateSteps;
    var late := LateSteps(sch || omp, vec);
    var early := [Flag(DOUBLE, Some(SINGLE)), Flag(SCH, None), Flag(OMP, None)]
      + (if omp then [Flag(PL, None)] else []);
    assert Steps(sch, omp, vec) == early + late;
  }

  lemma LateAt(vectorize: bool, vec: bool)
    ensures var late := LateSteps(vectorize, vec);
      && |late| >= 3 && late[0] == (if vectorize then Push(VEC) else Flag(VEC, None))
      && (vectorize || vec ==> |late| >= 5 && late[1] == Flag(DFS, None) && late[2] == Flag(VLS, None)
                               && late[3] == Flag(FUN, None) && late[4] == Flag(G, None))
      && (!vectorize && !vec ==> late[1] == Flag(SCAL, Some(SCAL)) && late[2] == Flag(INPL, None))
  {
    VectorAt(LastSteps());
    hide VectorSteps;
  }

  lemma VectorAt(rest: seq<Step>)
    ensures var v := VectorSteps(rest);
      |v| >= 4 && v[0] == Flag(DFS, None) && v[1] == Flag(VLS, None) && v[2] == Flag(FUN, None) && v[3] == Flag(G, None)
  {
  }

  lemma {:induction false} BelowStep(steps: seq<Step>, low: nat, q: nat, p: nat)
    requires Ordered(steps, low) && q < p < |steps|
    ensures steps[q].at < steps[p].at
    decreases p
  {
    if q == 0 {
      AboveHead(steps, low, p);
    } else {
      BelowStep(steps[1..], steps[0].High() + 1, q - 1, p - 1);
    }
  }

  lemma NoValueBefore(sch: bool, omp: bool, vec: bool, f: nat, q: nat)
    requires IsLookedFor(sch, omp, vec, f) && q < PlaceOf(f, omp) < |Steps(sch, omp, vec)|
    ensures !Steps(sch, omp, vec)[q].Value? && Steps(sch, omp, vec)[q].at < f
  {
    var steps := Steps(sch, omp, vec);
    StepOf(sch, omp, vec, f);
    StepsOrdered(sch, omp, vec);
    StepsFine(sch, omp, vec);
    StepsAt(sch, omp, vec);
    hide Steps, Ordered;
    BelowStep(steps, 0, q, PlaceOf(f, omp));
    assert Typed(steps[q]);
    if f >= SCAL && q < 3 {
      BelowStep(steps, 0, q, 3);
    }
  }

  // A flag that is looked for, given once, may stand anywhere: between a key and its value too.
  lemma FlagsMayMove(options: seq<string>, options': seq<string>, f: nat)
    requires f < 16 && LookedFor(options, f) && Moved(options, options', Key(f))
    ensures Canonical(options) == Canonical(options')
  {
    SameMembers(options, options', Key(f));
    var steps := StepsFor(options);
    var p := PlaceOf(f, Key(OMP) in options);
    assert StepsFor(options') == steps;
    var sch, omp, vec := Key(SCH) in options, Key(OMP) in options, Key(VEC) in options;
    StepOf(sch, omp, vec, f);
    hide Steps, Key, Moved, IsLookedFor, PlaceOf;
    forall q | 0 <= q < p
      ensures !steps[q].Value? && steps[q].at != steps[p].at
    {
      NoValueBefore(sch, omp, vec, f, q);
    }
    MovedFlag(options, options', steps, p);
  }

  lemma SameMembers(s: seq<string>, s': seq<string>, t: string)
    requires Moved(s, s', t)
    ensures forall x :: x in s <==> x in s'
  {
    var u, v, u', v' :| s == u + [t] + v && s' == u' + [t] + v' && u + v == u' + v' && t !in u + v;
    forall x
      ensures x in s <==> x in s'
    {
      assert x in s <==> x in u + v || x == t;
      assert x in s' <==> x in u' + v' || x == t;
    }
  }

  // ---- several flags at other places ----

  function Without(s: seq<string>, t: string): seq<string> {
    if s == [] then [] else (if s[0] == t then [] else [s[0]]) + Without(s[1..], t)
  }

  // The options without the flags of a list
  function Strip(s: seq<string>, flags: seq<nat>): seq<string>
    requires forall i :: 0 <= i < |flags| ==> flags[i] < 16
    decreases |flags|
  {
    if flags == [] then s else Strip(Without(s, Key(flags[0])), flags[1..])
  }

  // Each flag of the list is given once.
  ghost predicate GivenOnce(s: seq<string>, flags: seq<nat>)
    requires forall i :: 0 <= i < |flags| ==> flags[i] < 16
  {
    forall i :: 0 <= i < |flags| ==> multiset(s)[Key(flags[i])] == 1
  }

  lemma {:induction false} WithoutCounts(s: seq<string>, t: string, u: string)
    ensures multiset(Without(s, t))[u] == if u == t then 0 else multiset(s)[u]
  {
    if s != [] {
      WithoutCounts(s[1..], t, u);
      assert s == [s[0]] + s[1..];
    }
  }

  lemma {:induction false} WithoutAbsent(s: seq<string>, t: string)
    requires t !in s
    ensures Without(s, t) == s
  {
    if s != [] {
      WithoutAbsent(s[1..], t);
      assert s == [s[0]] + s[1..];
    }
  }

  lemma {:induction false} WithoutAppend(s: seq<string>, u: seq<string>, t: string)
    ensures Without(s + u, t) == Without(s, t) + Without(u, t)
  {
    if s == [] {
      assert s + u == u;
    } else {
      assert (s + u)[1..] == s[1..] + u;
      WithoutAppend(s[1..], u, t);
    }
  }

  lemma SplitOnce(s: seq<string>, t: string) returns (u: seq<string>, v: seq<string>)
    requires multiset(s)[t] == 1
    ensures s == u + [t] + v && t !in u && t !in v
  {
    assert t in s;
    var i :| 0 <= i < |s| && s[i] == t;
    u, v := s[..i], s[i + 1..];
    assert s == u + [t] + v;
    assert multiset(u + [t] + v) == multiset(u) + multiset{t} + multiset(v);
    assert multiset(s)[t] == multiset(u)[t] + 1 + multiset(v)[t];
  }

  lemma WithoutOnce(u: seq<string>, t: string, v: seq<string>)
    requires t !in u && t !in v
    ensures Without(u + [t] + v, t) == u + v
  {
    hide Without;
    WithoutAppend(u + [t], v, t);
    WithoutAppend(u, [t], t);
    OneWithout(t);
    WithoutAbsent(u, t);
    WithoutAbsent(v, t);
    assert u + [] == u;
  }

  // A flag given once, moved to the front
  lemma OnceToFront(s: seq<string>, t: string)
    requires multiset(s)[t] == 1
    ensures Moved(s, [t] + Without(s, t), t)
  {
    hide Without;
    var u, v := SplitOnce(s, t);
    WithoutOnce(u, t, v);
    MovedToFront(u, t, v);
  }

  lemma MovedToFront(u: seq<string>, t: string, v: seq<string>)
    requires t !in u && t !in v
    ensures Moved(u + [t] + v, [t] + (u + v), t)
  {
    assert [t] + (u + v) == [] + [t] + (u + v) && u + v == [] + (u + v) && t !in u + v;
  }

  lemma OneWithout(t: string)
    ensures Without([t], t) == [] && Without([], t) == []
  {
  }

  lemma {:induction false} StripFront(t: string, s: seq<string>, flags: seq<nat>)
    requires forall i :: 0 <= i < |flags| ==> flags[i] < 16 && Key(flags[i]) != t
    ensures Strip([t] + s, flags) == [t] + Strip(s, flags)
    decreases |flags|
  {
    hide Key;
    if flags != [] {
      assert ([t] + s)[1..] == s;
      StripFront(t, Without(s, Key(flags[0])), flags[1..]);
    }
  }

  // Whatever the order of flags that are looked for, each given once, and wherever they stand among the
  // other options: lists that agree without them have the same canonical form.
  lemma {:induction false} FlagsMayBeRearranged(s: seq<string>, s': seq<string>, flags: seq<nat>)
    requires forall i :: 0 <= i < |flags| ==> flags[i] < 16 && LookedFor(s, flags[i])
    requires forall i, j :: 0 <= i < j < |flags| ==> flags[i] != flags[j]
    requires GivenOnce(s, flags) && GivenOnce(s', flags) && Strip(s, flags) == Strip(s', flags)
    ensures Canonical(s) == Canonical(s')
    decreases |flags|
  {
    hide Canonical, Moved, LookedFor, GivenOnce, Without, Strip, Key;
    if flags == [] {
      NoStrip(s);
      NoStrip(s');
    } else {
      var t := Key(flags[0]);
      var u, u' := [t] + Without(s, t), [t] + Without(s', t);
      SameContext(s, s', flags);
      FirstToFront(s, flags);
      FirstToFront(s', flags);
      FlagsMayBeRearranged(u, u', flags[1..]);
    }
  }

  lemma NoStrip(s: seq<string>)
    ensures Strip(s, []) == s
  {
  }

  // The first flag of the list, moved to the front of the options
  lemma FirstToFront(s: seq<string>, flags: seq<nat>)
    requires flags != [] && forall i :: 0 <= i < |flags| ==> flags[i] < 16 && LookedFor(s, flags[i])
    requires forall i, j :: 0 <= i < j < |flags| ==> flags[i] != flags[j]
    requires GivenOnce(s, flags)
    ensures var u := [Key(flags[0])] + Without(s, Key(flags[0]));
      && Canonical(s) == Canonical(u) && (forall f: nat :: LookedFor(s, f) <==> LookedFor(u, f))
      && GivenOnce(u, flags[1..]) && Strip(u, flags[1..]) == [Key(flags[0])] + Strip(s, flags)
  {
    RestOfFlags(s, flags);
    assert multiset(s)[Key(flags[0])] == 1;
    hide Canonical, Moved, LookedFor, GivenOnce, Without, Strip, Key;
    var t := Key(flags[0]);
    var u := [t] + Without(s, t);
    OnceToFront(s, t);
    FlagsMayMove(s, u, flags[0]);
    SameMembers(s, u, t);
    SameLookedFor(s, u);
  }

  lemma SameLookedFor(s: seq<string>, u: seq<string>)
    requires forall x :: x in s <==> x in u
    ensures forall f: nat :: LookedFor(s, f) <==> LookedFor(u, f)
  {
    hide Key, IsLookedFor;
  }

  lemma RestOfFlags(s: seq<string>, flags: seq<nat>)
    requires flags != [] && forall i :: 0 <= i < |flags| ==> flags[i] < 16
    requires forall i, j :: 0 <= i < j < |flags| ==> flags[i] != flags[j]
    requires GivenOnce(s, flags)
    ensures var t := Key(flags[0]);
      && GivenOnce([t] + Without(s, t), flags[1..])
      && Strip([t] + Without(s, t), flags[1..]) == [t] + Strip(s, flags)
  {
    KeysDistinct();
    hide Key, Without;
    var t, rest := Key(flags[0]), flags[1..];
    forall i | 0 <= i < |rest| ensures Key(rest[i]) != t && multiset([t] + Without(s, t))[Key(rest[i])] == 1 {
      assert rest[i] == flags[i + 1] && flags[0] != flags[i + 1];
      WithoutCounts(s, t, Key(rest[i]));
    }
    StripFront(t, Without(s, t), rest);
  }

  lemma {:induction false} StripMembers(s: seq<string>, flags: seq<nat>, x: string)
    requires forall i :: 0 <= i < |flags| ==> flags[i] < 16 && Key(flags[i]) != x
    ensures x in s <==> x in Strip(s, flags)
    decreases |flags|
  {
    hide Key, Without;
    if flags != [] {
      WithoutCounts(s, Key(flags[0]), x);
      StripMembers(Without(s, Key(flags[0])), flags[1..], x);
    }
  }

  // The same keys are looked for in both lists.
  lemma SameContext(s: seq<string>, s': seq<string>, flags: seq<nat>)
    requires forall i :: 0 <= i < |flags| ==> flags[i] < 16
    requires GivenOnce(s, flags) && GivenOnce(s', flags) && Strip(s, flags) == Strip(s', flags)
    ensures forall x :: x in s <==> x in s'
    ensures forall f: nat :: LookedFor(s, f) <==> LookedFor(s', f)
  {
    hide Key, IsLookedFor, Strip;
    forall x ensures x in s <==> x in s' {
      if i :| 0 <= i < |flags| && Key(flags[i]) == x {
        assert multiset(s)[x] == 1 && multiset(s')[x] == 1;
      } else {
        StripMembers(s, flags, x);
        StripMembers(s', flags, x);
      }
    }
    SameLookedFor(s, s');
  }

  // ---- other flags ----

  // Which of -sch, -omp and -vec are given: they decide which keys are looked for.
  ghost predicate InContext(options: seq<string>, sch: bool, omp: bool, vec: bool) {
    (Key(SCH) in options <==> sch) && (Key(OMP) in options <==> omp) && (Key(VEC) in options <==> vec)
  }

  // The flag t stands n times in both lists, which agree without it.
  ghost predicate Agree(s: seq<string>, s': seq<string>, t: string, n: nat) {
    multiset(s)[t] == n == multiset(s')[t] && Without(s, t) == Without(s', t)
  }

  // In this context the places of the flag, given n times, never matter.
  ghost predicate MayMove(t: string, n: nat, sch: bool, omp: bool, vec: bool) {
    forall s, s' :: InContext(s, sch, omp, vec) && Agree(s, s', t, n) ==> Canonical(s) == Canonical(s')
  }

  ghost predicate TextLookedFor(t: string, sch: bool, omp: bool, vec: bool) {
    exists f: nat :: f < 16 && Key(f) == t && IsLookedFor(sch, omp, vec, f)
  }

  // The options of the context, without the flag
  function Presence(t: string, sch: bool, omp: bool, vec: bool): seq<string> {
    (if sch && t != Key(SCH) then [Key(SCH)] else []) + (if omp && t != Key(OMP) then [Key(OMP)] else [])
    + (if vec && t != Key(VEC) then [Key(VEC)] else [])
  }

  function Copies(t: string, k: nat): seq<string> {
    if k == 0 then [] else [t] + Copies(t, k - 1)
  }

  // After k times the flag: the flag between -mcd and its value, or before both
  function Witness(t: string, k: nat, between: bool): seq<string> {
    Copies(t, k) + (if between then ["-mcd", t, "8"] else [t, "-mcd", "8"])
  }

  ghost function Left(s: seq<string>, steps: seq<Step>): seq<string>
    decreases |steps|
  {
    if steps == [] then s else Left(Take(s, steps[0]).0, steps[1..])
  }

  // A step that does not concern these options
  ghost predicate Ignores(step: Step, head: seq<string>, tail: seq<string>) {
    match step
    case Flag(at, _) => Key(at) !in head
    case Value(at, _) => Key(at) !in head && Key(at) !in tail
    case Push(_) => true
  }

  lemma IgnoresLess(step: Step, head: seq<string>, tail: seq<string>, less: seq<string>)
    requires Ignores(step, head, tail) && forall x :: x in less ==> x in tail
    ensures Ignores(step, head, less)
  {
  }

  // Such a step leaves the head as it is.
  lemma TakeBehind(head: seq<string>, tail: seq<string>, step: Step)
    requires Ignores(step, head, tail)
    ensures Take(head + tail, step) == (head + Take(tail, step).0, Take(tail, step).1)
    ensures forall x :: x in Take(tail, step).0 ==> x in tail
  {
    hide Key;
    if step.Flag? && Key(step.at) in tail {
      FirstOfSuffix(head, tail, Key(step.at));
    }
  }

  lemma {:induction false} OutputBehind(head: seq<string>, tail: seq<string>, steps: seq<Step>, rest: seq<Step>)
    requires forall q :: 0 <= q < |steps| ==> Ignores(steps[q], head, tail)
    ensures Output(head + tail, steps + rest) == Output(tail, steps) + Output(head + Left(tail, steps), rest)
    decreases |steps|
  {
    hide Take, Ignores;
    if steps == [] {
      assert steps + rest == rest;
    } else {
      var next := Take(tail, steps[0]).0;
      TakeBehind(head, tail, steps[0]);
      forall q | 0 <= q < |steps[1..]| ensures Ignores(steps[1..][q], head, next) {
        IgnoresLess(steps[q + 1], head, tail, next);
      }
      OutputBehind(head, next, steps[1..], rest);
      assert (steps + rest)[1..] == steps[1..] + rest;
      assert Take(tail, steps[0]).1 + (Output(next, steps[1..]) + Output(head + Left(next, steps[1..]), rest))
          == Take(tail, steps[0]).1 + Output(next, steps[1..]) + Output(head + Left(next, steps[1..]), rest);
    }
  }

  lemma {:induction false} LeftLess(tail: seq<string>, steps: seq<Step>)
    requires forall q :: 0 <= q < |steps| ==> Ignores(steps[q], [], tail)
    ensures forall x :: x in Left(tail, steps) ==> x in tail
    decreases |steps|
  {
    hide Take, Ignores;
    if steps != [] {
      TakeBehind([], tail, steps[0]);
      forall q | 0 <= q < |steps[1..]| ensures Ignores(steps[1..][q], [], Take(tail, steps[0]).0) {
        IgnoresLess(steps[q + 1], [], tail, Take(tail, steps[0]).0);
      }
      LeftLess(Take(tail, steps[0]).0, steps[1..]);
    }
  }

  // ---- the two option lists ----

  lemma {:induction false} CopiesOf(t: string, k: nat)
    ensures |Copies(t, k)| == k && (forall i :: 0 <= i < k ==> Copies(t, k)[i] == t)
    ensures multiset(Copies(t, k))[t] == k && Without(Copies(t, k), t) == []
  {
    hide Without;
    OneWithout(t);
    if k > 0 {
      CopiesOf(t, k - 1);
      WithoutAppend([t], Copies(t, k - 1), t);
    }
  }

  lemma WitnessTokens(t: string, k: nat, between: bool)
    ensures forall x :: x in Witness(t, k, between) <==> x == t || x == Key(MCD) || x == "8"
    ensures !IsDash("8")
  {
    KeyTexts();
    CopiesOf(t, k);
    hide Copies;
    var x := if between then ["-mcd", t, "8"] else [t, "-mcd", "8"];
    assert x[0] in x && x[1] in x && x[2] in x;
  }

  // The value of -mcd is lost in one case and found in the other.
  lemma ValueOfMcd(t: string, k: nat, between: bool, tail: seq<string>)
    requires IsDash(t) && t != "-mcd"
    ensures TakeValue(Witness(t, k, between) + tail, "-mcd", "16").1 == ["-mcd", if between then "16" else "8"]
  {
    CopiesOf(t, k);
    hide Copies;
    var s := Witness(t, k, between) + tail;
    var i := if between then k else k + 1;
    assert s[i] == "-mcd" && forall j :: 0 <= j < i ==> s[j] == t;
    FirstIs(s, "-mcd", i);
    assert Erase(s, i)[i] == if between then t else "8";
    assert !IsDash("8");
  }

  // A step that looks for the flag erases its first copy.
  lemma TakeCopy(t: string, k: nat, between: bool, tail: seq<string>, orElse: seq<string>)
    requires k > 0
    ensures TakeFlag(Witness(t, k, between) + tail, t, orElse) == (Witness(t, k - 1, between) + tail, [t])
  {
    var s, rest := Witness(t, k, between) + tail, Witness(t, k - 1, between) + tail;
    assert s == [] + ([t] + rest) && [] + rest == rest;
    FirstAfter([], t, rest);
  }

  lemma WithoutThree(a: string, b: string, c: string, t: string)
    ensures Without([a, b, c], t) ==
      (if a == t then [] else [a]) + (if b == t then [] else [b]) + (if c == t then [] else [c])
  {
    hide Without;
    WithoutOne(a, t);
    WithoutOne(b, t);
    WithoutOne(c, t);
    WithoutAppend([a], [b, c], t);
    WithoutAppend([b], [c], t);
    assert [a] + [b, c] == [a, b, c] && [b] + [c] == [b, c];
  }

  lemma WithoutOne(a: string, t: string)
    ensures Without([a], t) == if a == t then [] else [a]
  {
    assert [a][1..] == [];
  }

  lemma WithoutWitness(t: string, k: nat, between: bool)
    requires t != "-mcd" && t != "8"
    ensures Without(Witness(t, k, between), t) == ["-mcd", "8"] && multiset(Witness(t, k, between))[t] == k + 1
  {
    hide Without, Copies;
    CopiesOf(t, k);
    if between {
      WithoutAppend(Copies(t, k), ["-mcd", t, "8"], t);
      WithoutThree("-mcd", t, "8", t);
    } else {
      WithoutAppend(Copies(t, k), [t, "-mcd", "8"], t);
      WithoutThree(t, "-mcd", "8", t);
    }
  }

  lemma WitnessesAgree(t: string, k: nat, p: seq<string>)
    requires t != "-mcd" && t != "8" && t !in p
    ensures Agree(Witness(t, k, true) + p, Witness(t, k, false) + p, t, k + 1)
  {
    hide Without, Witness;
    WithoutWitness(t, k, true);
    WithoutWitness(t, k, false);
    WithoutAppend(Witness(t, k, true), p, t);
    WithoutAppend(Witness(t, k, false), p, t);
  }

  ghost function Early(sch: bool, omp: bool, vec: bool): seq<Step>
    requires |Steps(sch, omp, vec)| >= 2
  {
    Steps(sch, omp, vec)[..|Steps(sch, omp, vec)| - 2]
  }

  // All steps but those of -mcd and -cn: their flags are looked for, their values are of -vs and -lv.
  lemma EarlySteps(sch: bool, omp: bool, vec: bool)
    ensures var steps := Steps(sch, omp, vec);
      && |steps| >= 2 && steps == Early(sch, omp, vec) + LastSteps()
      && forall q :: 0 <= q < |steps| - 2 ==> EarlyStep(steps[q], sch, omp, vec)
  {
    hide Steps, LateSteps, LastSteps;
    var steps := Steps(sch, omp, vec);
    var late := LateSteps(sch || omp, vec);
    var base := if omp then 4 else 3;
    EarlyAt(sch, omp, vec);
    LateEnds(sch || omp, vec);
    assert steps[|steps| - 2..] == late[|late| - 2..];
    assert steps == Early(sch, omp, vec) + steps[|steps| - 2..];
    forall q | 0 <= q < |steps| - 2 ensures EarlyStep(steps[q], sch, omp, vec) {
      if q >= base {
        assert steps[q] == late[q - base];
      }
    }
  }

  ghost predicate EarlyStep(step: Step, sch: bool, omp: bool, vec: bool) {
    match step
    case Flag(at, _) => IsLookedFor(sch, omp, vec, at)
    case Value(at, _) => at == VS || at == LV
    case Push(_) => true
  }

  lemma LateEnds(vectorize: bool, vec: bool)
    ensures var late := LateSteps(vectorize, vec);
      && |late| >= 3 && late[|late| - 2..] == LastSteps()
      && forall q :: 0 <= q < |late| - 2 ==>
           match late[q]
           case Flag(at, _) =>
             || (at == VEC && !vectorize)
             || (DFS <= at <= G && (vectorize || vec))
             || ((at == SCAL || at == INPL) && !vectorize && !vec)
           case Value(at, _) => at == VS || at == LV
           case Push(_) => true
  {
    VectorEnds(LastSteps());
    assert |LastSteps()| == 2;
    hide VectorSteps, LastSteps;
  }

  lemma VectorEnds(rest: seq<Step>)
    ensures var v := VectorSteps(rest);
      && |v| == 6 + |rest| && v[6..] == rest
      && forall q :: 0 <= q < 6 ==>
           match v[q]
           case Flag(at, _) => DFS <= at <= G
           case Value(at, _) => at == VS || at == LV
           case Push(_) => false
  {
  }

  lemma WitnessContext(t: string, k: nat, between: bool, sch: bool, omp: bool, vec: bool)
    requires (t == Key(SCH) ==> sch) && (t == Key(OMP) ==> omp) && (t == Key(VEC) ==> vec)
    ensures InContext(Witness(t, k, between) + Presence(t, sch, omp, vec), sch, omp, vec)
  {
    KeysDistinct();
    WitnessTokens(t, k, between);
    hide Key, IsDash, Witness;
  }

  // An early step that does not look for the flag
  ghost predicate PassesBy(t: string, step: Step, sch: bool, omp: bool, vec: bool) {
    EarlyStep(step, sch, omp, vec) && (step.Flag? ==> Key(step.at) != t)
  }

  // Every early step but the one that looks for the flag leaves a witness as it is.
  lemma WitnessIgnored(t: string, k: nat, between: bool, tail: seq<string>, sch: bool, omp: bool, vec: bool, step: Step)
    requires IsDash(t) && t != Key(VS) && t != Key(LV) && PassesBy(t, step, sch, omp, vec)
    requires forall x :: x in tail ==> x in Presence(t, sch, omp, vec)
    ensures Ignores(step, Witness(t, k, between), tail)
  {
    hide Key, IsDash, IsLookedFor, Presence, Witness;
    KeysDistinct();
    WitnessTokens(t, k, between);
    PresenceTokens(t, sch, omp, vec);
    McdIsNotLookedFor(sch, omp, vec);
  }

  lemma PresenceTokens(t: string, sch: bool, omp: bool, vec: bool)
    ensures forall x :: x in Presence(t, sch, omp, vec) ==> x == Key(SCH) || x == Key(OMP) || x == Key(VEC)
  {
    hide Key;
  }

  lemma McdIsNotLookedFor(sch: bool, omp: bool, vec: bool)
    ensures !IsLookedFor(sch, omp, vec, MCD)
  {
  }

  // These steps take what they look for behind the witness, whichever it is.
  lemma WitnessBehind(t: string, k: nat, tail: seq<string>, sch: bool, omp: bool, vec: bool,
                      steps: seq<Step>, rest: seq<Step>)
    requires IsDash(t) && t != Key(VS) && t != Key(LV)
    requires forall q :: 0 <= q < |steps| ==> PassesBy(t, steps[q], sch, omp, vec)
    requires forall x :: x in tail ==> x in Presence(t, sch, omp, vec)
    ensures forall b :: Output(Witness(t, k, b) + tail, steps + rest)
                     == Output(tail, steps) + Output(Witness(t, k, b) + Left(tail, steps), rest)
    ensures forall x :: x in Left(tail, steps) ==> x in Presence(t, sch, omp, vec)
  {
    hide Key, IsDash, PassesBy, Ignores, Presence, Witness, Output, Left;
    forall b ensures Output(Witness(t, k, b) + tail, steps + rest)
                  == Output(tail, steps) + Output(Witness(t, k, b) + Left(tail, steps), rest)
    {
      forall q | 0 <= q < |steps| ensures Ignores(steps[q], Witness(t, k, b), tail) {
        WitnessIgnored(t, k, b, tail, sch, omp, vec, steps[q]);
      }
      OutputBehind(Witness(t, k, b), tail, steps, rest);
    }
    forall q | 0 <= q < |steps| ensures Ignores(steps[q], [], tail) {
      WitnessIgnored(t, k, true, tail, sch, omp, vec, steps[q]);
      IgnoresNothing(steps[q], Witness(t, k, true), tail);
    }
    LeftLess(tail, steps);
  }

  lemma IgnoresNothing(step: Step, head: seq<string>, tail: seq<string>)
    requires Ignores(step, head, tail)
    ensures Ignores(step, [], tail)
  {
    hide Key;
  }

  // What the two lists have in common after the early steps: the same output, and behind a witness with j
  // copies the same rest.
  ghost predicate Leads(t: string, k: nat, p: seq<string>, steps: seq<Step>,
                        done: seq<string>, j: nat, left: seq<string>) {
    forall b :: Output(Witness(t, k, b) + p, steps) == done + Output(Witness(t, j, b) + left, LastSteps())
  }

  lemma LeadsUnlooked(t: string, k: nat, sch: bool, omp: bool, vec: bool)
    returns (done: seq<string>, left: seq<string>)
    requires IsDash(t) && t != Key(VS) && t != Key(LV) && !TextLookedFor(t, sch, omp, vec)
    ensures Leads(t, k, Presence(t, sch, omp, vec), Steps(sch, omp, vec), done, k, left)
  {
    EarlySteps(sch, omp, vec);
    hide Key, IsDash, Steps, EarlyStep, TextLookedFor, Presence, Output, Left, Witness, LastSteps;
    var p, early := Presence(t, sch, omp, vec), Early(sch, omp, vec);
    forall q | 0 <= q < |early| ensures PassesBy(t, early[q], sch, omp, vec) {
      assert EarlyStep(Steps(sch, omp, vec)[q], sch, omp, vec);
      EarlyFlag(t, early[q], sch, omp, vec);
    }
    WitnessBehind(t, k, p, sch, omp, vec, early, LastSteps());
    done, left := Output(p, early), Left(p, early);
  }

  lemma EarlyFlag(t: string, step: Step, sch: bool, omp: bool, vec: bool)
    requires EarlyStep(step, sch, omp, vec) && !TextLookedFor(t, sch, omp, vec)
    ensures step.Flag? ==> Key(step.at) != t
  {
    hide Key, IsLookedFor;
  }

  lemma LeadsLooked(t: string, k: nat, sch: bool, omp: bool, vec: bool, f: nat)
    returns (done: seq<string>, left: seq<string>)
    requires IsDash(t) && t != Key(VS) && t != Key(LV)
    requires f < 16 && t == Key(f) && IsLookedFor(sch, omp, vec, f) && k > 0
    ensures Leads(t, k, Presence(t, sch, omp, vec), Steps(sch, omp, vec), done, k - 1, left)
  {
    hide Key, IsDash, Steps, PassesBy, Presence, Output, Witness, LastSteps, IsLookedFor;
    var a, step, c := SplitEarly(sch, omp, vec, f);
    done, left := LeadsPast(t, k, sch, omp, vec, a, step, c);
  }

  lemma LeadsPast(t: string, k: nat, sch: bool, omp: bool, vec: bool, a: seq<Step>, step: Step, c: seq<Step>)
    returns (done: seq<string>, left: seq<string>)
    requires IsDash(t) && t != Key(VS) && t != Key(LV) && k > 0 && step.Flag? && Key(step.at) == t
    requires forall q :: 0 <= q < |a| ==> PassesBy(t, a[q], sch, omp, vec)
    requires forall q :: 0 <= q < |c| ==> PassesBy(t, c[q], sch, omp, vec)
    ensures Leads(t, k, Presence(t, sch, omp, vec), a + ([step] + (c + LastSteps())), done, k - 1, left)
  {
    hide Key, IsDash, PassesBy, Presence, Output, Left, Witness, LastSteps;
    var p := Presence(t, sch, omp, vec);
    var rest := c + LastSteps();
    WitnessBehind(t, k, p, sch, omp, vec, a, [step] + rest);
    var mid := Left(p, a);
    WitnessBehind(t, k - 1, mid, sch, omp, vec, c, LastSteps());
    done, left := Output(p, a) + ([t] + Output(mid, c)), Left(mid, c);
    forall b ensures Output(Witness(t, k, b) + p, a + ([step] + rest))
                  == done + Output(Witness(t, k - 1, b) + left, LastSteps())
    {
      CopyStep(t, k, b, mid, step, rest);
      Regroup(Output(p, a), [t], Output(mid, c), Output(Witness(t, k - 1, b) + left, LastSteps()));
    }
  }

  lemma Regroup(a: seq<string>, b: seq<string>, c: seq<string>, d: seq<string>)
    ensures a + (b + (c + d)) == (a + (b + c)) + d
  {
  }

  lemma CopyStep(t: string, k: nat, between: bool, tail: seq<string>, step: Step, rest: seq<Step>)
    requires k > 0 && step.Flag? && Key(step.at) == t
    ensures Output(Witness(t, k, between) + tail, [step] + rest)
         == [t] + Output(Witness(t, k - 1, between) + tail, rest)
  {
    hide Witness, Key, TakeFlag;
    TakeCopy(t, k, between, tail, if step.orElse.Some? then [Key(step.orElse.value)] else []);
    assert ([step] + rest)[1..] == rest;
  }

  // The early steps before and behind the one that looks for a flag do not look for it.
  lemma SplitEarly(sch: bool, omp: bool, vec: bool, f: nat) returns (a: seq<Step>, step: Step, c: seq<Step>)
    requires f < 16 && IsLookedFor(sch, omp, vec, f)
    ensures Steps(sch, omp, vec) == a + ([step] + (c + LastSteps())) && step.Flag? && step.at == f
    ensures forall q :: 0 <= q < |a| ==> PassesBy(Key(f), a[q], sch, omp, vec)
    ensures forall q :: 0 <= q < |c| ==> PassesBy(Key(f), c[q], sch, omp, vec)
  {
    hide Key, Steps, EarlyStep, PassesBy, IsLookedFor, PlaceOf, LastSteps, Early;
    PlaceIsEarly(sch, omp, vec, f);
    EarlySteps(sch, omp, vec);
    var early, at := Early(sch, omp, vec), PlaceOf(f, omp);
    a, step, c := early[..at], early[at], early[at + 1..];
    assert early == a + ([step] + c);
    assert (a + ([step] + c)) + LastSteps() == a + ([step] + (c + LastSteps()));
  }

  lemma PlaceIsEarly(sch: bool, omp: bool, vec: bool, f: nat)
    requires f < 16 && IsLookedFor(sch, omp, vec, f)
    ensures |Steps(sch, omp, vec)| >= 2
    ensures var early, at := Early(sch, omp, vec), PlaceOf(f, omp);
      && at < |early| && early[at].Flag? && early[at].at == f
      && forall q :: 0 <= q < |early| && q != at ==> PassesBy(Key(f), early[q], sch, omp, vec)
  {
    hide Key, Steps, EarlyStep, IsLookedFor, PlaceOf, LastSteps, Early;
    EarlySteps(sch, omp, vec);
    StepOf(sch, omp, vec, f);
    LastAreValues();
    var steps, early, at := Steps(sch, omp, vec), Early(sch, omp, vec), PlaceOf(f, omp);
    assert at < |early| by {
      assert forall q :: 0 <= q < 2 ==> steps[|early| + q] == LastSteps()[q];
    }
    forall q | 0 <= q < |early| && q != at ensures PassesBy(Key(f), early[q], sch, omp, vec) {
      assert EarlyStep(steps[q], sch, omp, vec);
      OtherStep(sch, omp, vec, at, q);
    }
  }

  lemma OtherStep(sch: bool, omp: bool, vec: bool, p: nat, q: nat)
    requires p < |Steps(sch, omp, vec)| && q < |Steps(sch, omp, vec)| && p != q
    ensures Key(Steps(sch, omp, vec)[p].at) != Key(Steps(sch, omp, vec)[q].at)
  {
    StepsOrdered(sch, omp, vec);
    KeysDistinct();
    hide Key, Steps, Ordered;
    if q < p {
      BelowStep(Steps(sch, omp, vec), 0, q, p);
    } else {
      BelowStep(Steps(sch, omp, vec), 0, p, q);
    }
  }

  lemma LastAreValues()
    ensures |LastSteps()| == 2 && LastSteps()[0].Value? && LastSteps()[1].Value?
  {
  }

  lemma PrefixBehind(done: seq<string>, a: seq<string>, b: seq<string>)
    requires a <= b
    ensures done + a <= done + b
  {
    assert b == a + b[|a|..];
    assert done + b == done + a + b[|a|..];
  }

  // So the two lists differ in the value of -mcd.
  lemma LeadsDiffer(t: string, k: nat, p: seq<string>, steps: seq<Step>, done: seq<string>, j: nat, left: seq<string>)
    requires Leads(t, k, p, steps, done, j, left) && IsDash(t) && t != "-mcd"
    ensures Output(Witness(t, k, true) + p, steps) != Output(Witness(t, k, false) + p, steps)
  {
    KeyTexts();
    hide Key, IsDash, Output, Witness, LastSteps, TakeValue;
    forall b: bool
      ensures done + ["-mcd", if b then "16" else "8"] <= Output(Witness(t, k, b) + p, steps)
    {
      WitnessTokens(t, j, b);
      ValueOfMcd(t, j, b, left);
      McdFirst(Witness(t, j, b) + left);
      PrefixBehind(done, ["-mcd", if b then "16" else "8"], Output(Witness(t, j, b) + left, LastSteps()));
    }
    DifferentTails(done, Output(Witness(t, k, true) + p, steps), Output(Witness(t, k, false) + p, steps));
  }

  // Two lists with k + 1 copies of the flag that agree without it.
  lemma WitnessDiffers(t: string, k: nat, sch: bool, omp: bool, vec: bool)
    requires IsDash(t) && t != Key(VS) && t != Key(LV) && t != Key(MCD)
    requires (t == Key(SCH) ==> sch) && (t == Key(OMP) ==> omp) && (t == Key(VEC) ==> vec)
    requires k > 0 || !TextLookedFor(t, sch, omp, vec)
    ensures var p := Presence(t, sch, omp, vec);
      var s, s' := Witness(t, k, true) + p, Witness(t, k, false) + p;
      && InContext(s, sch, omp, vec) && Agree(s, s', t, k + 1) && Canonical(s) != Canonical(s')
  {
    FlagNotPresent(t, sch, omp, vec);
    hide Key, IsDash, TextLookedFor, Presence, Witness, Canonical, Agree, InContext;
    var p := Presence(t, sch, omp, vec);
    WitnessesAgree(t, k, p);
    WitnessContext(t, k, true, sch, omp, vec);
    WitnessContext(t, k, false, sch, omp, vec);
    CanonicalIn(Witness(t, k, true) + p, sch, omp, vec);
    CanonicalIn(Witness(t, k, false) + p, sch, omp, vec);
    OutputsDiffer(t, k, sch, omp, vec);
  }

  lemma CanonicalIn(s: seq<string>, sch: bool, omp: bool, vec: bool)
    requires InContext(s, sch, omp, vec)
    ensures Canonical(s) == Output(s, Steps(sch, omp, vec))
  {
    hide Key, Output, Steps;
  }

  lemma OutputsDiffer(t: string, k: nat, sch: bool, omp: bool, vec: bool)
    requires IsDash(t) && t != Key(VS) && t != Key(LV) && t != "-mcd"
    requires k > 0 || !TextLookedFor(t, sch, omp, vec)
    ensures var p, steps := Presence(t, sch, omp, vec), Steps(sch, omp, vec);
      Output(Witness(t, k, true) + p, steps) != Output(Witness(t, k, false) + p, steps)
  {
    hide Key, IsDash, IsLookedFor, Presence, Witness, Output, Steps, Leads;
    var p := Presence(t, sch, omp, vec);
    if f: nat :| f < 16 && Key(f) == t && IsLookedFor(sch, omp, vec, f) {
      var done, left := LeadsLooked(t, k, sch, omp, vec, f);
      LeadsDiffer(t, k, p, Steps(sch, omp, vec), done, k - 1, left);
    } else {
      var done, left := LeadsUnlooked(t, k, sch, omp, vec);
      LeadsDiffer(t, k, p, Steps(sch, omp, vec), done, k, left);
    }
  }

  lemma McdFirst(s: seq<string>)
    requires Key(MCD) in s
    ensures Output(s, LastSteps()) != [] && TakeValue(s, Key(MCD), "16").1 <= Output(s, LastSteps())
  {
  }

  lemma DifferentTails(done: seq<string>, a: seq<string>, b: seq<string>)
    requires done + ["-mcd", "16"] <= a && done + ["-mcd", "8"] <= b
    ensures a != b
  {
    assert a[|done| + 1] == "16" && b[|done| + 1] == "8";
  }

  // Lists that have the flag once and agree without it
  lemma AgreeOnce(s: seq<string>, s': seq<string>, t: string)
    requires Agree(s, s', t, 1)
    ensures Moved(s, s', t)
  {
    hide Without;
    var u, v := SplitOnce(s, t);
    var u', v' := SplitOnce(s', t);
    WithoutOnce(u, t, v);
    WithoutOnce(u', t, v');
    assert t !in u + v;
  }

  // Exactly: the places of a flag without value, given n times, do not matter if and only if the program
  // looks for the flag in this context and n is 1. Any other flag, and any further copy, of which only the
  // first is erased, may come between a key and its value, which is then lost.
  lemma MayMoveExactly(t: string, n: nat, sch: bool, omp: bool, vec: bool)
    requires n >= 1 && IsDash(t) && t != Key(VS) && t != Key(LV) && t != Key(MCD)
    requires (t == Key(SCH) ==> sch) && (t == Key(OMP) ==> omp) && (t == Key(VEC) ==> vec)
    ensures MayMove(t, n, sch, omp, vec) <==> n == 1 && TextLookedFor(t, sch, omp, vec)
  {
    hide Key, IsDash, Canonical, IsLookedFor, Moved, Agree, Witness, Presence;
    if n == 1 && TextLookedFor(t, sch, omp, vec) {
      var f: nat :| f < 16 && Key(f) == t && IsLookedFor(sch, omp, vec, f);
      forall s, s' | InContext(s, sch, omp, vec) && Agree(s, s', t, n) ensures Canonical(s) == Canonical(s') {
        AgreeOnce(s, s', t);
        FlagsMayMove(s, s', f);
      }
    } else {
      WitnessDiffers(t, n - 1, sch, omp, vec);
    }
  }

  // The flag that is always looked for first, given twice
  lemma DoubleTwice()
    ensures Canonical(["-double", "-mcd", "-double", "8"]) != Canonical(["-double", "-double", "-mcd", "8"])
  {
    var t := "-double";
    KeyTexts();
    hide Canonical, Agree, Key;
    WitnessDiffers(t, 1, false, false, false);
    assert Copies(t, 1) == [t] + Copies(t, 0);
    assert Presence(t, false, false, false) == [];
    assert Witness(t, 1, true) + [] == [t, "-mcd", t, "8"] && Witness(t, 1, false) + [] == [t, t, "-mcd", "8"];
  }

  lemma FlagNotPresent(t: string, sch: bool, omp: bool, vec: bool)
    requires IsDash(t) && t != Key(MCD)
    ensures t !in Presence(t, sch, omp, vec) && t != "-mcd" && t != "8"
  {
    KeyTexts();
    assert !IsDash("8");
    hide Key;
  }
}
