// The life of DSPs and of their factories: the windows of src/MainStructure/FLWindow.cpp create, use
// and replace them, the session manager of src/MainStructure/FLSessionManager.cpp owns them.
module DspLifecycle {
  import opened Options

  // ---- the session manager ----

  // A deleted DSP, and whether a running stream was using it
  datatype Deletion = Deletion(dsp: nat, used: bool)

  // fDSPToFactory, and what was ever made, with the window that it was made for, and destroyed.
  // Factories and DSPs are numbered in the order of their creation.
  datatype Session = Session(table: map<nat, nat>, factories: seq<nat>, dsps: seq<nat>,
                             freed: seq<nat>, deleted: seq<Deletion>)

  function FactoryCreated(s: Session, w: nat, ok: bool): (Session, Option<nat>) {
    if ok then (s.(factories := s.factories + [w]), Some(|s.factories|)) else (s, None)
  }

  function DSPCreated(s: Session, factory: Option<nat>, w: nat, ok: bool): (Session, Option<nat>) {
    if factory.None? || !ok then (s, None)
    else (s.(dsps := s.dsps + [w], table := s.table[|s.dsps| := factory.value]), Some(|s.dsps|))
  }

  function FactoryDeleted(s: Session, factory: Option<nat>): Session {
    if factory.None? then s else s.(freed := s.freed + [factory.value])
  }

  // `running` are the DSPs of the running streams.
  function DSPDeleted(s: Session, dsp: Option<nat>, running: set<nat>): Session {
    if dsp.None? || dsp.value !in s.table then s
    else FactoryDeleted(s.(table := s.table - {dsp.value},
                          deleted := s.deleted + [Deletion(dsp.value, dsp.value in running)]),
                       Some(s.table[dsp.value]))
  }

  class SessionManager {
    var dspToFactory: map<nat, nat>
    var factories: seq<nat>
    var dsps: seq<nat>
    var freed: seq<nat>
    ghost var deleted: seq<Deletion>

    ghost function State(): Session
      reads this
    {
      Session(dspToFactory, factories, dsps, freed, deleted)
    }

    constructor ()
      ensures State() == Session(map[], [], [], [], [])
    {
      dspToFactory, factories, dsps, freed, deleted := map[], [], [], [], [];
    }

    method CreateFactory(w: nat, ok: bool) returns (factory: Option<nat>)
      modifies this
      ensures (State(), factory) == FactoryCreated(old(State()), w, ok)
    {
      if !ok {
        return None;
      }
      factory := Some(|factories|);
      factories := factories + [w];
    }

    method CreateDSP(factory: Option<nat>, w: nat, ok: bool) returns (dsp: Option<nat>)
      modifies this
      ensures (State(), dsp) == DSPCreated(old(State()), factory, w, ok)
    {
      if factory.None? || !ok {
        return None;
      }
      dsp := Some(|dsps|);
      dspToFactory := dspToFactory[|dsps| := factory.value];
      dsps := dsps + [w];
    }

    method DeleteFactory(factory: Option<nat>)
      modifies this
      ensures State() == FactoryDeleted(old(State()), factory)
    {
      if factory.None? {
        return;
      }
      freed := freed + [factory.value];
    }

    method DeleteDSPandFactory(dsp: Option<nat>, ghost running: set<nat>)
      modifies this
      ensures State() == DSPDeleted(old(State()), dsp, running)
    {
      if dsp.None? || dsp.value !in dspToFactory {
        return;
      }
      var factory := dspToFactory[dsp.value];
      dspToFactory := dspToFactory - {dsp.value};
      deleted := deleted + [Deletion(dsp.value, dsp.value in running)];
      DeleteFactory(Some(factory));
    }
  }

  // ---- windows ----

  // The current stream of the audio manager: the DSP that it computes, and whether it runs
  datatype Stream = Stream(dsp: Option<nat>, running: bool)

  const NEW_STREAM := Stream(None, false)

  // fCurrentDSP, fClientOpen and the stream of fAudioManager
  datatype Window = Window(dsp: Option<nat>, clientOpen: bool, stream: Stream)

  const NEW_WINDOW := Window(None, false, NEW_STREAM)

  // What the steps of an operation answer: createFactory, init_audioClient, createDSP, setDSP,
  // init_FadeAudio, and `start`, whose answer is not tested.
  datatype Chance = Chance(factory: bool, audio: bool, dsp: bool, set_: bool, fade: bool, start: bool)

  // The DSP that a stream is using
  function Uses(t: Stream): set<nat> { if t.running && t.dsp.Some? then {t.dsp.value} else {} }

  function StopAudio(w: Window): Window {
    if w.clientOpen then w.(stream := w.stream.(running := false), clientOpen := false) else w
  }

  function StartAudio(w: Window, start: bool): Window {
    if w.clientOpen then w else w.(stream := w.stream.(running := start), clientOpen := true)
  }

  // init_Window on a new window; `others` are the DSPs that other windows are using.
  function InitWindow(s: Session, id: nat, ch: Chance, others: set<nat>): (Session, Option<Window>) {
    var (s1, factory) := FactoryCreated(s, id, ch.factory);
    if factory.None? then (s1, None)
    else if !ch.audio then (FactoryDeleted(s1, factory), None)
    else
      var (s2, dsp) := DSPCreated(s1, factory, id, ch.dsp);
      if dsp.None? then (FactoryDeleted(s2, factory), None)
      else if ch.set_ then (s2, Some(StartAudio(Window(dsp, false, NEW_STREAM.(dsp := dsp)), ch.start)))
      else (DSPDeleted(s2, dsp, others), None)
  }

  function UpdateWindow(s: Session, id: nat, w: Window, ch: Chance, others: set<nat>): (Session, Window, bool) {
    var (s1, factory) := FactoryCreated(s, id, ch.factory);
    if factory.None? then (s1, w, false)
    else
      var (s2, dsp) := DSPCreated(s1, factory, id, ch.dsp);
      if dsp.None? then (FactoryDeleted(s2, factory), w, false)
      else if ch.fade then
        // After wait_EndFade the old stream is stopped and the new one is current.
        var stream := Stream(dsp, ch.start);
        (DSPDeleted(s2, w.dsp, others + Uses(stream)), w.(dsp := dsp, stream := stream), true)
      else (DSPDeleted(s2, dsp, others + Uses(w.stream)), w, false)
  }

  function ResetAudio(s: Session, id: nat, w: Window, ch: Chance, others: set<nat>): (Session, Window, bool) {
    var (s1, factory) := FactoryCreated(s, id, ch.factory);
    if factory.None? then (s1, w, false)
    else
      var w1 := StopAudio(w);
      var s2 := DSPDeleted(s1, w1.dsp, others + Uses(w1.stream));
      var (s3, dsp) := DSPCreated(s2, factory, id, ch.dsp);
      if dsp.None? then (FactoryDeleted(s3, factory), w1.(dsp := None), false)
      // update_AudioArchitecture deletes the audio manager and makes another one.
      else if ch.audio && ch.set_ then
        (s3, StartAudio(w1.(dsp := dsp, stream := NEW_STREAM.(dsp := dsp)), ch.start), true)
      else (s3, w1.(dsp := dsp, stream := NEW_STREAM), false)
  }

  function CloseWindow(s: Session, w: Window, others: set<nat>): Session {
    var stream := if w.clientOpen then w.stream.(running := false) else w.stream;
    DSPDeleted(s, w.dsp, others + Uses(stream))
  }

  class FLWindow {
    const id: nat
    var currentDSP: Option<nat>
    var clientOpen: bool
    var stream: Stream

    ghost function State(): Window
      reads this
    {
      Window(currentDSP, clientOpen, stream)
    }

    constructor (id: nat)
      ensures this.id == id && State() == NEW_WINDOW
    {
      this.id := id;
      currentDSP, clientOpen, stream := None, false, NEW_STREAM;
    }

    method Stop()
      modifies this
      ensures State() == StopAudio(old(State()))
    {
      if clientOpen {
        stream := stream.(running := false);
        clientOpen := false;
      }
    }

    method Start(started: bool)
      modifies this
      ensures State() == StartAudio(old(State()), started)
    {
      if !clientOpen {
        stream := stream.(running := started);
        clientOpen := true;
      }
    }

    method Init(manager: SessionManager, ch: Chance, ghost others: set<nat>) returns (ok: bool)
      requires State() == NEW_WINDOW
      modifies this, manager
      ensures var (s, w) := InitWindow(old(manager.State()), id, ch, others);
              manager.State() == s && ok == w.Some? && State() == if ok then w.value else NEW_WINDOW
    {
      var factory := manager.CreateFactory(id, ch.factory);
      if factory.None? {
        return false;
      }
      if !ch.audio {
        manager.DeleteFactory(factory);
        return false;
      }
      currentDSP := manager.CreateDSP(factory, id, ch.dsp);
      if currentDSP.None? {
        manager.DeleteFactory(factory);
        return false;
      }
      if ch.set_ {
        stream := stream.(dsp := currentDSP);
        Start(ch.start);
        return true;
      } else {
        manager.DeleteDSPandFactory(currentDSP, others);
        currentDSP := None;
        return false;
      }
    }

    method Update(manager: SessionManager, ch: Chance, ghost others: set<nat>) returns (ok: bool)
      modifies this, manager
      ensures (manager.State(), State(), ok) == UpdateWindow(old(manager.State()), id, old(State()), ch, others)
    {
      var factory := manager.CreateFactory(id, ch.factory);
      ok := factory.Some?;
      if ok {
        var newDSP := manager.CreateDSP(factory, id, ch.dsp);
        if newDSP.None? {
          manager.DeleteFactory(factory);
          ok := false;
        } else {
          if ch.fade {
            stream := Stream(newDSP, ch.start);
            var oldDSP := currentDSP;
            currentDSP := newDSP;
            manager.DeleteDSPandFactory(oldDSP, others + Uses(stream));
          } else {
            manager.DeleteDSPandFactory(newDSP, others + Uses(stream));
            ok := false;
          }
        }
      }
    }

    method ResetAudioDSPInterfaces(manager: SessionManager, ch: Chance, ghost others: set<nat>) returns (ok: bool)
      modifies this, manager
      ensures (manager.State(), State(), ok) == ResetAudio(old(manager.State()), id, old(State()), ch, others)
    {
      var factory := manager.CreateFactory(id, ch.factory);
      if factory.None? {
        return false;
      }
      Stop();
      manager.DeleteDSPandFactory(currentDSP, others + Uses(stream));
      currentDSP := manager.CreateDSP(factory, id, ch.dsp);
      if currentDSP.None? {
        manager.DeleteFactory(factory);
        return false;
      }
      stream := NEW_STREAM;
      if ch.audio && ch.set_ {
        stream := stream.(dsp := currentDSP);
        Start(ch.start);
        return true;
      } else {
        return false;
      }
    }

    method Close(manager: SessionManager, ghost others: set<nat>)
      modifies this, manager
      ensures manager.State() == CloseWindow(old(manager.State()), old(State()), others)
      ensures State() == NEW_WINDOW
    {
      if clientOpen {
        stream := stream.(running := false);
      }
      manager.DeleteDSPandFactory(currentDSP, others + Uses(stream));
      currentDSP, clientOpen, stream := None, false, NEW_STREAM;
    }
  }

  // ---- what the session manager keeps ----

  ghost predicate NoDuplicates(q: seq<nat>) { forall i, j :: 0 <= i < j < |q| ==> q[i] != q[j] }

  function Dead(deleted: seq<Deletion>): (dead: seq<nat>)
    ensures |dead| == |deleted|
  {
    seq(|deleted|, i requires 0 <= i < |deleted| => deleted[i].dsp)
  }

  // Every factory is freed once, or belongs to one DSP, or is held by the operation in progress.
  ghost predicate FactoryLedger(s: Session, held: set<nat>) {
    && (forall d :: d in s.table ==>
         s.table[d] < |s.factories| && s.table[d] !in s.freed && s.table[d] !in held)
    && (forall d, e :: d in s.table && e in s.table && s.table[d] == s.table[e] ==> d == e)
    && (forall f :: f in s.freed ==> f < |s.factories| && f !in held)
    && (forall f :: f in held ==> f < |s.factories|)
    && NoDuplicates(s.freed)
    && (forall f :: 0 <= f < |s.factories| ==> f in s.freed || f in held || Owned(s, f))
  }

  ghost predicate Owned(s: Session, f: nat) { exists d :: d in s.table && s.table[d] == f }

  // Every DSP is in the table, or was deleted once.
  ghost predicate DspLedger(s: Session) {
    && (forall d :: d in s.table ==> d < |s.dsps| && d !in Dead(s.deleted))
    && (forall d :: d in Dead(s.deleted) ==> d < |s.dsps|)
    && NoDuplicates(Dead(s.deleted))
    && (forall d :: 0 <= d < |s.dsps| ==> d in s.table || d in Dead(s.deleted))
  }

  // A DSP and its factory were made for the same window.
  ghost predicate SameOwners(s: Session) {
    forall d :: d in s.table ==> d < |s.dsps| && s.table[d] < |s.factories| && s.factories[s.table[d]] == s.dsps[d]
  }

  ghost predicate Ledger(s: Session, held: set<nat>, w: nat) {
    && FactoryLedger(s, held) && DspLedger(s) && SameOwners(s)
    && (forall f :: f in held ==> f < |s.factories| && s.factories[f] == w)
  }

  // The DSPs in the table that were made for a window
  ghost function Mine(s: Session, w: nat): set<nat> {
    set d | d in s.table && d < |s.dsps| && s.dsps[d] == w
  }

  function AsSet(dsp: Option<nat>): set<nat> { if dsp.Some? then {dsp.value} else {} }

  lemma AppendDistinct(q: seq<nat>, x: nat)
    requires NoDuplicates(q) && x !in q
    ensures NoDuplicates(q + [x])
  {
  }

  lemma SameDspLedger(s: Session, t: Session)
    requires DspLedger(s) && t.table == s.table && t.dsps == s.dsps && t.deleted == s.deleted
    ensures DspLedger(t)
  {
  }

  lemma NextDspIsNew(s: Session)
    requires DspLedger(s)
    ensures |s.dsps| !in s.table
  {
  }

  lemma CreatesFactory(s: Session, w: nat)
    requires Ledger(s, {}, w)
    ensures var (t, f) := FactoryCreated(s, w, true);
      f.Some? && Ledger(t, {f.value}, w) && forall o :: Mine(t, o) == Mine(s, o)
  {
    hide DspLedger, NoDuplicates;
    var t := FactoryCreated(s, w, true).0;
    forall f | 0 <= f < |t.factories| ensures f in t.freed || f == |s.factories| || Owned(t, f) {
      if f < |s.factories| {
        assert f in s.freed || Owned(s, f);
      }
    }
    SameDspLedger(s, t);
  }

  lemma CreatesDSP(s: Session, f: nat, w: nat)
    requires Ledger(s, {f}, w)
    ensures var (t, d) := DSPCreated(s, Some(f), w, true);
      && d.Some? && Ledger(t, {}, w) && d.value !in s.table && d.value == |s.dsps|
      && Mine(t, w) == Mine(s, w) + {d.value} && forall o :: o != w ==> Mine(t, o) == Mine(s, o)
  {
    hide DspLedger, FactoryLedger, Mine;
    NextDspIsNew(s);
    HandsOver(s, f, w);
    EntersTable(s, f, w);
    forall o
      ensures Mine(DSPCreated(s, Some(f), w, true).0, o) == if o == w then Mine(s, o) + {|s.dsps|} else Mine(s, o)
    {
      MineWithNew(s, f, w, o);
    }
  }

  lemma HandsOver(s: Session, f: nat, w: nat)
    requires FactoryLedger(s, {f}) && |s.dsps| !in s.table
    ensures FactoryLedger(DSPCreated(s, Some(f), w, true).0, {})
  {
    hide NoDuplicates;
    var t := DSPCreated(s, Some(f), w, true).0;
    assert t.table[|s.dsps|] == f;
    forall g | 0 <= g < |t.factories| ensures g in t.freed || Owned(t, g) {
      assert g in s.freed || g in {f} || Owned(s, g);
      if Owned(s, g) {
        var e :| e in s.table && s.table[e] == g;
        assert t.table[e] == g;
      }
    }
  }

  lemma EntersTable(s: Session, f: nat, w: nat)
    requires DspLedger(s)
    ensures DspLedger(DSPCreated(s, Some(f), w, true).0)
  {
    hide NoDuplicates;
  }

  lemma MineWithNew(s: Session, f: nat, w: nat, o: nat)
    requires forall d :: d in s.table ==> d < |s.dsps|
    ensures Mine(DSPCreated(s, Some(f), w, true).0, o) == if o == w then Mine(s, o) + {|s.dsps|} else Mine(s, o)
  {
  }

  lemma FreesFactory(s: Session, f: nat, w: nat)
    requires Ledger(s, {f}, w)
    ensures var t := FactoryDeleted(s, Some(f)); Ledger(t, {}, w) && forall o :: Mine(t, o) == Mine(s, o)
  {
    hide DspLedger, NoDuplicates;
    var t := FactoryDeleted(s, Some(f));
    AppendDistinct(s.freed, f);
    SameDspLedger(s, t);
    forall g | 0 <= g < |t.factories| ensures g in t.freed || Owned(t, g) {
      assert g in s.freed || g == f || Owned(s, g);
    }
  }

  lemma Deletes(s: Session, dsp: Option<nat>, running: set<nat>, held: set<nat>, w: nat)
    requires Ledger(s, held, w)
    ensures var t := DSPDeleted(s, dsp, running);
      Ledger(t, held, w) && forall o :: Mine(t, o) == Mine(s, o) - AsSet(dsp)
  {
    hide DspLedger, FactoryLedger;
    if dsp.Some? && dsp.value in s.table {
      DeletesFactory(s, dsp.value, running, held);
      DeletesDSP(s, dsp.value, running);
    }
  }

  lemma DeletesFactory(s: Session, d: nat, running: set<nat>, held: set<nat>)
    requires FactoryLedger(s, held) && d in s.table
    ensures FactoryLedger(DSPDeleted(s, Some(d), running), held)
  {
    hide NoDuplicates;
    var t := DSPDeleted(s, Some(d), running);
    AppendDistinct(s.freed, s.table[d]);
    forall g | 0 <= g < |t.factories| ensures g in t.freed || g in held || Owned(t, g) {
      assert g in s.freed || g in held || Owned(s, g);
      if Owned(s, g) {
        var e :| e in s.table && s.table[e] == g;
        if e != d {
          assert t.table[e] == g;
        }
      }
    }
  }

  lemma DeletesDSP(s: Session, d: nat, running: set<nat>)
    requires DspLedger(s) && d in s.table
    ensures DspLedger(DSPDeleted(s, Some(d), running))
  {
    hide NoDuplicates;
    var t := DSPDeleted(s, Some(d), running);
    assert Dead(t.deleted) == Dead(s.deleted) + [d];
    AppendDistinct(Dead(s.deleted), d);
  }

  // ---- what the operations of a window keep ----

  // The table has the current DSP of the window and no other DSP of it; its stream computes DSPs that
  // were made for it.
  ghost predicate Accounted(s: Session, id: nat, w: Window) {
    && Mine(s, id) == AsSet(w.dsp)
    && (w.stream.dsp.Some? ==> w.stream.dsp.value < |s.dsps| && s.dsps[w.stream.dsp.value] == id)
  }

  // An operation for a window leaves the others alone.
  ghost predicate Apart(s: Session, t: Session, id: nat) {
    && s.dsps <= t.dsps
    && forall o :: o != id ==> Mine(t, o) == Mine(s, o)
  }

  lemma DeletedOnly(s: Session, dsp: Option<nat>, running: set<nat>)
    ensures DSPDeleted(s, dsp, running).dsps == s.dsps
    ensures DSPDeleted(s, dsp, running).factories == s.factories
  {
  }

  lemma InitKeepsLedger(s: Session, id: nat, ch: Chance, others: set<nat>)
    requires Ledger(s, {}, id) && Mine(s, id) == {}
    ensures var (t, w) := InitWindow(s, id, ch, others);
      && Ledger(t, {}, id) && Apart(s, t, id)
      && (if w.Some? then Accounted(t, id, w.value) else Mine(t, id) == {})
  {
    hide Ledger, Mine, DSPDeleted;
    if ch.factory {
      CreatesFactory(s, id);
      var (s1, f) := FactoryCreated(s, id, true);
      if ch.audio && ch.dsp {
        CreatesDSP(s1, f.value, id);
        var (s2, d) := DSPCreated(s1, f, id, true);
        Deletes(s2, d, others, {}, id);
        DeletedOnly(s2, d, others);
        if !ch.set_ {
          OthersKept(s1, s2, DSPDeleted(s2, d, others), id, d);
        }
      } else {
        FreesFactory(s1, f.value, id);
      }
    }
  }

  // A DSP of one window is no DSP of another one.
  lemma OthersKept(s1: Session, s2: Session, t: Session, id: nat, dsp: Option<nat>)
    requires forall o :: o != id ==> Mine(s2, o) == Mine(s1, o)
    requires AsSet(dsp) <= Mine(s2, id)
    requires forall o :: Mine(t, o) == Mine(s2, o) - AsSet(dsp)
    ensures forall o :: o != id ==> Mine(t, o) == Mine(s1, o)
  {
    forall o | o != id ensures Mine(t, o) == Mine(s1, o) {
      assert forall d :: d in AsSet(dsp) ==> d in Mine(s2, id) && d !in Mine(s2, o);
    }
  }

  lemma UpdateKeepsLedger(s: Session, id: nat, w: Window, ch: Chance, others: set<nat>)
    requires Ledger(s, {}, id) && Accounted(s, id, w)
    ensures var (t, v, ok) := UpdateWindow(s, id, w, ch, others);
      Ledger(t, {}, id) && Apart(s, t, id) && Accounted(t, id, v)
  {
    hide Ledger, Mine, DSPDeleted;
    if ch.factory {
      CreatesFactory(s, id);
      var (s1, f) := FactoryCreated(s, id, true);
      if ch.dsp {
        CreatesDSP(s1, f.value, id);
        var (s2, d) := DSPCreated(s1, f, id, true);
        var stream := Stream(d, ch.start);
        var running := others + Uses(if ch.fade then stream else w.stream);
        var gone := if ch.fade then w.dsp else d;
        Deletes(s2, gone, running, {}, id);
        DeletedOnly(s2, gone, running);
        OthersKept(s1, s2, DSPDeleted(s2, gone, running), id, gone);
        NewIsNotOld(s1, id, w.dsp, d.value);
      } else {
        FreesFactory(s1, f.value, id);
      }
    }
  }

  lemma NewIsNotOld(s: Session, id: nat, dsp: Option<nat>, d: nat)
    requires AsSet(dsp) <= Mine(s, id) && d !in s.table
    ensures d !in AsSet(dsp)
  {
  }

  lemma ResetKeepsLedger(s: Session, id: nat, w: Window, ch: Chance, others: set<nat>)
    requires Ledger(s, {}, id) && Accounted(s, id, w)
    ensures var (t, v, ok) := ResetAudio(s, id, w, ch, others);
      Ledger(t, {}, id) && Apart(s, t, id) && Accounted(t, id, v)
  {
    hide Ledger, Mine, DSPDeleted;
    if ch.factory {
      CreatesFactory(s, id);
      var (s1, f) := FactoryCreated(s, id, true);
      var w1 := StopAudio(w);
      var running := others + Uses(w1.stream);
      Deletes(s1, w1.dsp, running, {f.value}, id);
      DeletedOnly(s1, w1.dsp, running);
      var s2 := DSPDeleted(s1, w1.dsp, running);
      OthersKept(s, s1, s2, id, w1.dsp);
      assert Mine(s2, id) == {};
      if ch.dsp {
        CreatesDSP(s2, f.value, id);
      } else {
        FreesFactory(s2, f.value, id);
      }
    }
  }

  lemma CloseKeepsLedger(s: Session, id: nat, w: Window, others: set<nat>)
    requires Ledger(s, {}, id) && Accounted(s, id, w)
    ensures var t := CloseWindow(s, w, others); Ledger(t, {}, id) && Apart(s, t, id) && Mine(t, id) == {}
  {
    hide Ledger, Mine, DSPDeleted;
    var stream := if w.clientOpen then w.stream.(running := false) else w.stream;
    Deletes(s, w.dsp, others + Uses(stream), {}, id);
    DeletedOnly(s, w.dsp, others + Uses(stream));
    OthersKept(s, s, CloseWindow(s, w, others), id, w.dsp);
  }

  // ---- runs ----

  datatype System = System(session: Session, windows: map<nat, Window>)

  datatype Event =
    | Open(id: nat, chance: Chance)
    | Change(id: nat, chance: Chance)
    | Reset(id: nat, chance: Chance)
    | Shut(id: nat)

  // The DSPs that the running streams of the other windows are using
  function UsedByOthers(windows: map<nat, Window>, id: nat): set<nat> {
    set o | o in windows && o != id && windows[o].stream.running && windows[o].stream.dsp.Some?
      :: windows[o].stream.dsp.value
  }

  function Step(x: System, e: Event): System {
    var others := UsedByOthers(x.windows, e.id);
    match e
    case Open(id, ch) =>
      if id in x.windows then x
      else
        var (s, w) := InitWindow(x.session, id, ch, others);
        System(s, if w.Some? then x.windows[id := w.value] else x.windows)
    case Change(id, ch) =>
      if id !in x.windows then x
      else
        var (s, w, _) := UpdateWindow(x.session, id, x.windows[id], ch, others);
        System(s, x.windows[id := w])
    case Reset(id, ch) =>
      if id !in x.windows then x
      else
        var (s, w, _) := ResetAudio(x.session, id, x.windows[id], ch, others);
        System(s, x.windows[id := w])
    case Shut(id) =>
      if id !in x.windows then x
      else System(CloseWindow(x.session, x.windows[id], others), x.windows - {id})
  }

  const START := System(Session(map[], [], [], [], []), map[])

  function Run(events: seq<Event>): System {
    if events == [] then START else Step(Run(events[..|events| - 1]), events[|events| - 1])
  }

  ghost predicate WellKept(s: Session) { FactoryLedger(s, {}) && DspLedger(s) && SameOwners(s) }

  // The table has the current DSPs of the open windows, and nothing else.
  ghost predicate Conserved(x: System) {
    && WellKept(x.session)
    && (forall id :: id in x.windows ==> Accounted(x.session, id, x.windows[id]))
    && (forall id :: id !in x.windows ==> Mine(x.session, id) == {})
  }

  lemma OtherAccounts(s: Session, t: Session, id: nat, o: nat, w: Window)
    requires Apart(s, t, id) && o != id && Accounted(s, o, w)
    ensures Accounted(t, o, w)
  {
    hide Mine;
  }

  lemma OtherMine(s: Session, t: Session, id: nat, o: nat)
    requires Apart(s, t, id) && o != id
    ensures Mine(t, o) == Mine(s, o)
  {
  }

  // What a step does to the session and to the window that it is about
  lemma StepKeepsLedger(x: System, e: Event)
    requires Conserved(x)
    ensures var y := Step(x, e);
      && WellKept(y.session) && Apart(x.session, y.session, e.id)
      && (forall o :: o != e.id ==> (o in y.windows <==> o in x.windows))
      && (forall o :: o != e.id && o in x.windows ==> y.windows[o] == x.windows[o])
      && (if e.id in y.windows then Accounted(y.session, e.id, y.windows[e.id]) else Mine(y.session, e.id) == {})
  {
    hide FactoryLedger, DspLedger, SameOwners, Mine, InitWindow, UpdateWindow, ResetAudio, CloseWindow, UsedByOthers;
    var others := UsedByOthers(x.windows, e.id);
    match e {
      case Open(id, ch) =>
        if id !in x.windows {
          InitKeepsLedger(x.session, id, ch, others);
        }
      case Change(id, ch) =>
        if id in x.windows {
          UpdateKeepsLedger(x.session, id, x.windows[id], ch, others);
        }
      case Reset(id, ch) =>
        if id in x.windows {
          ResetKeepsLedger(x.session, id, x.windows[id], ch, others);
        }
      case Shut(id) =>
        if id in x.windows {
          CloseKeepsLedger(x.session, id, x.windows[id], others);
        }
    }
  }

  lemma StepConserves(x: System, e: Event)
    requires Conserved(x)
    ensures Conserved(Step(x, e))
  {
    hide WellKept, Accounted, Mine, Step, Apart;
    var y := Step(x, e);
    StepKeepsLedger(x, e);
    forall o | o in y.windows ensures Accounted(y.session, o, y.windows[o]) {
      if o != e.id {
        OtherAccounts(x.session, y.session, e.id, o, x.windows[o]);
      }
    }
    forall o | o !in y.windows ensures Mine(y.session, o) == {} {
      if o != e.id {
        OtherMine(x.session, y.session, e.id, o);
      }
    }
  }

  lemma StartIsConserved()
    ensures Conserved(START)
  {
  }

  lemma {:induction false} RunConserves(events: seq<Event>)
    ensures Conserved(Run(events))
  {
    hide Step, Conserved;
    if events == [] {
      StartIsConserved();
    } else {
      RunConserves(events[..|events| - 1]);
      StepConserves(Run(events[..|events| - 1]), events[|events| - 1]);
    }
  }

  // ---- main results, over every run and whatever fails ----

  // The keys of the table are the current DSPs of the open windows.
  lemma TableHasCurrentDSPs(events: seq<Event>, d: nat)
    ensures var x := Run(events);
      d in x.session.table <==> exists id :: id in x.windows && x.windows[id].dsp == Some(d)
  {
    hide Run, FactoryLedger;
    RunConserves(events);
    var x := Run(events);
    if d in x.session.table {
      var id := x.session.dsps[d];
      assert d in Mine(x.session, id);
      assert id in x.windows && x.windows[id].dsp == Some(d);
    }
    if id :| id in x.windows && x.windows[id].dsp == Some(d) {
      assert d in Mine(x.session, id);
    }
  }

  lemma NoneMine(s: Session, id: nat)
    requires Mine(s, id) == {}
    ensures forall d :: d in s.table && d < |s.dsps| ==> s.dsps[d] != id
  {
    forall d | d in s.table && d < |s.dsps| ensures s.dsps[d] != id {
      assert d !in Mine(s, id);
    }
  }

  // No factory is freed twice and no DSP is deleted twice. What was made for a window that is closed, or
  // that could not be opened, is gone.
  lemma FreedExactlyOnce(events: seq<Event>, id: nat)
    ensures var x := Run(events);
      && NoDuplicates(x.session.freed) && NoDuplicates(Dead(x.session.deleted))
      && (id !in x.windows ==>
           && (forall f :: 0 <= f < |x.session.factories| && x.session.factories[f] == id ==> f in x.session.freed)
           && (forall d :: 0 <= d < |x.session.dsps| && x.session.dsps[d] == id ==> d in Dead(x.session.deleted)))
  {
    hide Run, NoDuplicates, Dead;
    RunConserves(events);
    var x := Run(events);
    var s := x.session;
    if id !in x.windows {
      NoneMine(s, id);
      forall f | 0 <= f < |s.factories| && s.factories[f] == id ensures f in s.freed {
        assert f in s.freed || Owned(s, f);
      }
    }
  }

  // An open window has its factory, and only that one.
  lemma OpenWindowHasItsFactory(events: seq<Event>, id: nat, f: nat)
    requires id in Run(events).windows && f < |Run(events).session.factories|
    requires Run(events).session.factories[f] == id
    ensures var x := Run(events); var dsp := x.windows[id].dsp;
      f in x.session.freed <==> !(dsp.Some? && dsp.value in x.session.table && x.session.table[dsp.value] == f)
  {
    hide Run, NoDuplicates, DspLedger;
    RunConserves(events);
    var x := Run(events);
    var s := x.session;
    if f !in s.freed {
      assert Owned(s, f);
      var d :| d in s.table && s.table[d] == f;
      assert d in Mine(s, id);
    }
  }

  // ---- which windows are open, and what their streams compute ----

  // What an event does to the windows: a new DSP has the next number.
  lemma StepOnWindow(x: System, e: Event)
    ensures var y, n := Step(x, e), Some(|x.session.dsps|);
      && (forall o :: o != e.id ==> (o in y.windows <==> o in x.windows))
      && (forall o :: o != e.id && o in x.windows ==> y.windows[o] == x.windows[o])
      && match e
         case Open(id, ch) =>
           if id in x.windows then y == x
           else if ch.factory && ch.audio && ch.dsp && ch.set_ then
             id in y.windows && y.windows[id] == Window(n, true, Stream(n, ch.start))
           else id !in y.windows
         case Change(id, ch) =>
           if id !in x.windows then y == x
           else
             id in y.windows && y.windows[id] ==
               if ch.factory && ch.dsp && ch.fade then Window(n, x.windows[id].clientOpen, Stream(n, ch.start))
               else x.windows[id]
         case Reset(id, ch) =>
           if id !in x.windows then y == x
           else
             id in y.windows && y.windows[id] ==
               if !ch.factory then x.windows[id]
               else if !ch.dsp then
                 Window(None, false, Stream(x.windows[id].stream.dsp,
                                            x.windows[id].stream.running && !x.windows[id].clientOpen))
               else if ch.audio && ch.set_ then Window(n, true, Stream(n, ch.start))
               else Window(n, false, Stream(None, false))
         case Shut(id) => id !in y.windows
  {
    hide UsedByOthers;
    match e {
      case Open(_, _) =>
      case Change(_, _) =>
      case Reset(_, _) => ResetKeepsDSPs(x.session, e.id, e.chance);
      case Shut(_) =>
    }
  }

  // Deleting a DSP does not change the number of the next one.
  lemma ResetKeepsDSPs(s: Session, id: nat, ch: Chance)
    ensures forall d: Option<nat>, running: set<nat> ::
      DSPDeleted(FactoryCreated(s, id, ch.factory).0, d, running).dsps == s.dsps
  {
  }

  // The last opening or closing of the window that went through was an opening.
  predicate IsOpen(events: seq<Event>, id: nat) {
    if events == [] then false
    else
      var before, e := events[..|events| - 1], events[|events| - 1];
      if e.id != id then IsOpen(before, id)
      else
        match e
        case Open(_, ch) => IsOpen(before, id) || (ch.factory && ch.audio && ch.dsp && ch.set_)
        case Shut(_) => false
        case _ => IsOpen(before, id)
  }

  lemma {:induction false} OpenExactly(events: seq<Event>, id: nat)
    ensures id in Run(events).windows <==> IsOpen(events, id)
  {
    hide Step;
    if events != [] {
      OpenExactly(events[..|events| - 1], id);
      StepOnWindow(Run(events[..|events| - 1]), events[|events| - 1]);
    }
  }

  // ---- when is a DSP deleted under a running stream? ----

  // A reset of the audio that fails after stop_Audio
  predicate FailsAfterStop(ch: Chance) { ch.factory && !(ch.dsp && ch.audio && ch.set_) }

  // The event opens the window: it is not open before.
  predicate Opens(before: seq<Event>, e: Event, id: nat) {
    e.Open? && e.id == id && id !in Run(before).windows
  }

  // The last reset of the window that went so far has failed.
  predicate Stale(events: seq<Event>, id: nat) {
    if events == [] then false
    else
      var before, e := events[..|events| - 1], events[|events| - 1];
      if Opens(before, e, id) then false
      else if e.id == id && e.Reset? && e.chance.factory then FailsAfterStop(e.chance)
      else Stale(before, id)
  }

  // The operation goes through, up to the start of a stream.
  predicate Starts(before: seq<Event>, e: Event, id: nat) {
    && e.id == id
    && match e
       case Open(_, ch) => Opens(before, e, id) && ch.factory && ch.audio && ch.dsp && ch.set_
       case Change(_, ch) => ch.factory && ch.dsp && ch.fade
       case Reset(_, ch) => ch.factory && ch.dsp && ch.audio && ch.set_
       case Shut(_) => false
  }

  // What `start` answered in the last opening, update or reset of the window that came to it
  predicate Answered(events: seq<Event>, id: nat) {
    if events == [] then false
    else
      var before, e := events[..|events| - 1], events[|events| - 1];
      if Starts(before, e, id) then e.chance.start else Answered(before, id)
  }

  // Likewise, but a reset that fails silences the stream: when it reaches the audio manager, which is
  // made anew, and before that when stop_Audio finds the client open.
  predicate Plays(events: seq<Event>, id: nat) {
    if events == [] then false
    else
      var before, e := events[..|events| - 1], events[|events| - 1];
      if Starts(before, e, id) then e.chance.start
      else if e.id == id && e.Reset? && e.chance.factory then
        !e.chance.dsp && Stale(before, id) && Plays(before, id)
      else Plays(before, id)
  }

  // fClientOpen of an open window is false exactly when its last reset has failed after stop_Audio.
  lemma {:induction false} ClientOpenUnlessStale(events: seq<Event>, id: nat)
    requires id in Run(events).windows
    ensures Run(events).windows[id].clientOpen <==> !Stale(events, id)
  {
    hide DSPDeleted, UsedByOthers;
    if events != [] {
      var before := events[..|events| - 1];
      var x := Run(before);
      if id in x.windows {
        ClientOpenUnlessStale(before, id);
      }
    }
  }

  // Whether the stream of a window runs is a matter of the events alone.
  lemma {:induction false} RunningExactly(events: seq<Event>, id: nat)
    requires id in Run(events).windows
    ensures Run(events).windows[id].stream.running <==> Plays(events, id)
  {
    hide DSPDeleted, UsedByOthers, Stale;
    if events != [] {
      var before := events[..|events| - 1];
      if id in Run(before).windows {
        ClientOpenUnlessStale(before, id);
        RunningExactly(before, id);
      }
    }
  }

  lemma {:induction false} PlaysAsAnswered(events: seq<Event>, id: nat)
    requires id in Run(events).windows && !Stale(events, id)
    ensures Plays(events, id) <==> Answered(events, id)
  {
    hide DSPDeleted, UsedByOthers;
    if events != [] {
      var before := events[..|events| - 1];
      if id in Run(before).windows && !Starts(before, events[|events| - 1], id) {
        PlaysAsAnswered(before, id);
      }
    }
  }

  // The flag tells whether the stream runs exactly in these runs: the last reset of the window has not
  // failed and the last `start` succeeded, or it has failed and nothing plays since.
  lemma ClientOpenIffRunning(events: seq<Event>, id: nat)
    requires id in Run(events).windows
    ensures var w := Run(events).windows[id];
      && (!Stale(events, id) ==> w.clientOpen && (w.stream.running <==> Answered(events, id)))
      && ((w.clientOpen <==> w.stream.running) <==>
           if Stale(events, id) then !Plays(events, id) else Answered(events, id))
  {
    hide Run, Stale, Answered, Plays;
    ClientOpenUnlessStale(events, id);
    RunningExactly(events, id);
    if !Stale(events, id) {
      PlaysAsAnswered(events, id);
    }
  }

  // The last opening, update or reset of the window that came to replace its stream was a reset that failed.
  predicate Silenced(events: seq<Event>, id: nat) {
    if events == [] then false
    else
      var before, e := events[..|events| - 1], events[|events| - 1];
      if Starts(before, e, id) then false
      else if e.id == id && e.Reset? && e.chance.factory then true
      else Silenced(before, id)
  }

  // The stream of an open window computes the current DSP of this window, which exists, exactly when its
  // last replacement was not a failed reset.
  lemma {:induction false} StreamComputesDSP(events: seq<Event>, id: nat)
    requires id in Run(events).windows
    ensures var w := Run(events).windows[id];
      && (w.dsp.Some? && w.stream.dsp == w.dsp <==> !Silenced(events, id))
      && (!Stale(events, id) ==> w.dsp.Some? && w.stream.dsp == w.dsp)
  {
    hide Step;
    if events != [] {
      var before, e := events[..|events| - 1], events[|events| - 1];
      StepOnWindow(Run(before), e);
      if id in Run(before).windows {
        StreamComputesDSP(before, id);
      }
    }
  }

  // The deletions of a step under a running stream
  ghost predicate DeletesUsed(x: System, e: Event) {
    exists i :: |x.session.deleted| <= i < |Step(x, e).session.deleted| && Step(x, e).session.deleted[i].used
  }

  // The stream of the window runs its current DSP, but stop will not be called.
  predicate Unstoppable(w: Window) { !w.clientOpen && w.dsp.Some? && w.stream.running && w.stream.dsp == w.dsp }

  lemma OthersUseOthers(x: System, id: nat, d: nat)
    requires Conserved(x) && d < |x.session.dsps| && x.session.dsps[d] == id
    ensures d !in UsedByOthers(x.windows, id)
  {
    hide WellKept, Mine;
  }

  lemma NewIsUnused(x: System, id: nat)
    requires Conserved(x)
    ensures |x.session.dsps| !in UsedByOthers(x.windows, id)
  {
    hide WellKept, Mine;
  }

  lemma CurrentIsOwned(x: System, id: nat)
    requires Conserved(x) && id in x.windows && x.windows[id].dsp.Some?
    ensures var d := x.windows[id].dsp.value;
      d in x.session.table && d < |x.session.dsps| && x.session.dsps[d] == id
  {
    hide WellKept;
    assert x.windows[id].dsp.value in Mine(x.session, id);
  }

  // Exactly: a close, or a reset whose compilation succeeds, of a window whose stream runs while
  // fClientOpen is false. An update never does it, nor an opening that fails.
  lemma DeletesUsedExactly(x: System, e: Event)
    requires Conserved(x)
    ensures DeletesUsed(x, e) <==>
      && e.id in x.windows && Unstoppable(x.windows[e.id])
      && (e.Shut? || (e.Reset? && e.chance.factory))
  {
    hide Conserved, UsedByOthers;
    NewIsUnused(x, e.id);
    if e.id in x.windows && x.windows[e.id].dsp.Some? {
      CurrentIsOwned(x, e.id);
      OthersUseOthers(x, e.id, x.windows[e.id].dsp.value);
    }
    StreamIsOld(x, e.id);
    match e {
      case Open(_, _) => OpenDeletesUnused(x, e);
      case Change(_, _) => ChangeDeletesUnused(x, e);
      case Reset(_, _) => ResetDeletesUsed(x, e);
      case Shut(_) => ShutDeletesUsed(x, e);
    }
  }

  lemma StreamIsOld(x: System, id: nat)
    requires Conserved(x)
    ensures id in x.windows ==> |x.session.dsps| !in Uses(x.windows[id].stream)
  {
    hide WellKept, Mine;
    if id in x.windows {
      assert Accounted(x.session, id, x.windows[id]);
    }
  }

  lemma OpenDeletesUnused(x: System, e: Event)
    requires e.Open? && |x.session.dsps| !in UsedByOthers(x.windows, e.id)
    ensures !DeletesUsed(x, e)
  {
    hide UsedByOthers;
  }

  // When the old DSP is deleted its stream is stopped; the new one is deleted if its stream could not be made.
  lemma ChangeDeletesUnused(x: System, e: Event)
    requires e.Change? && |x.session.dsps| !in UsedByOthers(x.windows, e.id)
    requires e.id in x.windows ==>
      && |x.session.dsps| !in Uses(x.windows[e.id].stream)
      && (x.windows[e.id].dsp.Some? ==>
           && x.windows[e.id].dsp.value < |x.session.dsps|
           && x.windows[e.id].dsp.value !in UsedByOthers(x.windows, e.id))
    ensures !DeletesUsed(x, e)
  {
    hide UsedByOthers;
  }

  lemma ResetDeletesUsed(x: System, e: Event)
    requires e.Reset?
    requires e.id in x.windows && x.windows[e.id].dsp.Some? ==>
      && x.windows[e.id].dsp.value in x.session.table
      && x.windows[e.id].dsp.value !in UsedByOthers(x.windows, e.id)
    ensures DeletesUsed(x, e) <==> e.id in x.windows && Unstoppable(x.windows[e.id]) && e.chance.factory
  {
    hide UsedByOthers;
    var n := |x.session.deleted|;
    if e.id in x.windows && e.chance.factory && x.windows[e.id].dsp.Some? {
      var y := Step(x, e);
      assert |y.session.deleted| == n + 1;
      assert y.session.deleted[n].used <==> Unstoppable(x.windows[e.id]);
    }
  }

  lemma ShutDeletesUsed(x: System, e: Event)
    requires e.Shut?
    requires e.id in x.windows && x.windows[e.id].dsp.Some? ==>
      && x.windows[e.id].dsp.value in x.session.table
      && x.windows[e.id].dsp.value !in UsedByOthers(x.windows, e.id)
    ensures DeletesUsed(x, e) <==> e.id in x.windows && Unstoppable(x.windows[e.id])
  {
    hide UsedByOthers;
    var n := |x.session.deleted|;
    if e.id in x.windows && x.windows[e.id].dsp.Some? {
      var y := Step(x, e);
      assert |y.session.deleted| == n + 1;
      assert y.session.deleted[n].used <==> Unstoppable(x.windows[e.id]);
    }
  }

  // Since the last reset of the window that failed after stop_Audio, an update has started a stream.
  predicate Revived(events: seq<Event>, id: nat) {
    if events == [] then false
    else
      var before, e := events[..|events| - 1], events[|events| - 1];
      if Opens(before, e, id) || (e.id == id && e.Reset? && e.chance.factory) then false
      else if Starts(before, e, id) then Stale(before, id) && e.chance.start
      else Revived(before, id)
  }

  lemma {:induction false} UnstoppableIffRevived(events: seq<Event>, id: nat)
    requires id in Run(events).windows
    ensures Unstoppable(Run(events).windows[id]) <==> Revived(events, id)
  {
    hide DSPDeleted, UsedByOthers, Stale;
    if events != [] {
      var before := events[..|events| - 1];
      if id in Run(before).windows {
        ClientOpenUnlessStale(before, id);
        UnstoppableIffRevived(before, id);
      }
    }
  }

  // The next event closes, or resets with a successful compilation, a window that was revived so.
  predicate Harmful(events: seq<Event>, e: Event) {
    && e.id in Run(events).windows && Revived(events, e.id)
    && (e.Shut? || (e.Reset? && e.chance.factory))
  }

  lemma HarmfulExactly(events: seq<Event>, e: Event)
    ensures DeletesUsed(Run(events), e) <==> Harmful(events, e)
  {
    hide Run, Step, Conserved, Revived, DeletesUsed, Unstoppable;
    RunConserves(events);
    DeletesUsedExactly(Run(events), e);
    if e.id in Run(events).windows {
      UnstoppableIffRevived(events, e.id);
    }
  }

  // A run never deletes a DSP under a running stream exactly when none of its events is harmful.
  lemma {:induction false} NeverUsedExactly(events: seq<Event>)
    ensures (forall d :: d in Run(events).session.deleted ==> !d.used)
      <==> forall i :: 0 <= i < |events| ==> !Harmful(events[..i], events[i])
  {
    hide Step, Harmful, DeletesUsed;
    if events != [] {
      var n := |events| - 1;
      var before, e := events[..n], events[n];
      NeverUsedExactly(before);
      HarmfulExactly(before, e);
      StepDeletions(Run(before), e);
      assert forall i :: 0 <= i < n ==> before[..i] == events[..i] && before[i] == events[i];
    }
  }

  lemma StepDeletions(x: System, e: Event)
    ensures (forall d :: d in Step(x, e).session.deleted ==> !d.used)
      <==> (forall d :: d in x.session.deleted ==> !d.used) && !DeletesUsed(x, e)
  {
    StepAppends(x, e);
    hide Step;
    var old_, new_ := x.session.deleted, Step(x, e).session.deleted;
    forall d | d in new_ && d.used ensures d in old_ || DeletesUsed(x, e) {
      var i :| 0 <= i < |new_| && new_[i] == d;
      assert i < |old_| ==> old_[i] == d;
    }
    forall d | d in old_ ensures d in new_ {
      var i :| 0 <= i < |old_| && old_[i] == d;
      assert new_[i] == d;
    }
  }

  // Hence no DSP is ever deleted under a running stream, as long as no reset fails after stop_Audio.
  lemma NoFailedResetNoUsedDeletion(events: seq<Event>)
    requires forall i :: 0 <= i < |events| ==> events[i].Reset? ==> !FailsAfterStop(events[i].chance)
    ensures forall d :: d in Run(events).session.deleted ==> !d.used
  {
    hide Run, Revived;
    NeverUsedExactly(events);
    forall i | 0 <= i < |events| ensures !Harmful(events[..i], events[i]) {
      assert forall j :: 0 <= j < i ==> events[..i][j] == events[j];
      NeverRevived(events[..i], events[i].id);
    }
  }

  lemma {:induction false} NeverRevived(events: seq<Event>, id: nat)
    requires forall i :: 0 <= i < |events| ==> events[i].Reset? ==> !FailsAfterStop(events[i].chance)
    ensures !Revived(events, id)
  {
    hide Run, Stale;
    if events != [] {
      NeverStale(events[..|events| - 1], id);
      NeverRevived(events[..|events| - 1], id);
    }
  }

  lemma StepAppends(x: System, e: Event)
    ensures x.session.deleted <= Step(x, e).session.deleted
  {
    hide UsedByOthers;
  }

  lemma {:induction false} NeverStale(events: seq<Event>, id: nat)
    requires forall i :: 0 <= i < |events| ==> events[i].Reset? ==> !FailsAfterStop(events[i].chance)
    ensures !Stale(events, id)
  {
    hide Run;
    if events != [] {
      NeverStale(events[..|events| - 1], id);
    }
  }

  // The condition is needed: after a reset whose createDSP fails, an update starts a stream that the
  // close does not stop.
  lemma FailedResetThenClose(id: nat)
    ensures
      var all := Chance(true, true, true, true, true, true);
      var events := [Open(id, all), Reset(id, all.(dsp := false)), Change(id, all), Shut(id)];
      Run(events).session.deleted == [Deletion(0, false), Deletion(1, true)]
  {
    var all := Chance(true, true, true, true, true, true);
    var e0, e1, e2, e3 := Open(id, all), Reset(id, all.(dsp := false)), Change(id, all), Shut(id);
    var x1 := Step(START, e0);
    var x2 := Step(x1, e1);
    var x3 := Step(x2, e2);
    assert x1.windows[id] == Window(Some(0), true, Stream(Some(0), true));
    assert x2.windows[id] == Window(None, false, Stream(Some(0), false));
    assert x2.session.deleted == [Deletion(0, false)];
    assert x3.windows[id] == Window(Some(1), false, Stream(Some(1), true));
    assert x3.session.deleted == [Deletion(0, false)] && 1 in x3.session.table;
    FourSteps(e0, e1, e2, e3);
  }

  lemma FourSteps(e0: Event, e1: Event, e2: Event, e3: Event)
    ensures Run([e0, e1, e2, e3]) == Step(Step(Step(Step(START, e0), e1), e2), e3)
  {
    hide Step;
    assert [e0, e1, e2, e3][..3] == [e0, e1, e2];
    assert [e0, e1, e2][..2] == [e0, e1];
    assert [e0, e1][..1] == [e0];
    assert [e0][..0] == [];
    assert Run([e0]) == Step(Run([]), e0);
    assert Run([e0, e1]) == Step(Run([e0]), e1);
    assert Run([e0, e1, e2]) == Step(Run([e0, e1]), e2);
  }
}
