// The crossfade of src/Audio/CA/CA_audioManager.cpp: the GUI thread replaces the current stream
// with a new one, while the audio threads of both streams run their callbacks. A run is any
// interleaving of the three threads. A step is one access to shared memory, with two exceptions: a
// callback reads both flags when it begins, and a forced stop writes both. Neither order is seen by
// the results below. Before the timeout each of the two flags is lowered by its own callback only, so
// that reading both is reading the one that the other thread may raise. After it the results are about
// the new stream, of which the flag of the fade out is never raised, and about the end of the old one,
// which comes at the same step whatever it plays.
module Crossfade {
  import opened Options
  import opened Fader

  // A callback in progress, with its samples left to play
  datatype Call = Call(mode: Mode, left: nat)

  // `played` are the gains of all samples of the stream, and `fadeAt` is the first of them that a
  // callback in mode Out played.
  datatype Stream = Stream(fade: Fade, running: bool, call: Option<Call>, played: seq<real>, fadeAt: Option<nat>)

  // The GUI thread, in start_Fade, then in wait_EndFade.
  datatype Pc = LaunchIn | LaunchOut | Start | Poll | ForceNew | ForceOld | StopOld | Swap | Returned

  datatype Who = Old | New

  datatype System = System(pc: Pc, old_: Stream, new_: Stream, timedOut: bool,
                           exitAt: nat, current: Who, deleted: seq<Who>)

  // The outcome of `start`, or the expiry of the timer, is the argument of a step of the GUI.
  datatype Event = Gui(outcome: bool) | Begin(who: Who, numFrames: nat) | Sample(who: Who) | End(who: Who)

  // ---- audio threads ----

  function BeginCall(t: Stream, numFrames: nat): Stream {
    if t.running && t.call.None? then t.(call := Some(Call(ModeOf(t.fade), numFrames))) else t
  }

  function PlaySample(t: Stream): Stream {
    if t.call.Some? && t.call.value.left > 0 then
      var c := t.call.value;
      t.(fade := SampleStep(t.fade, c.mode),
         call := Some(c.(left := c.left - 1)),
         played := t.played + [SampleGain(t.fade, c.mode)],
         fadeAt := if c.mode == Out && t.fadeAt.None? then Some(|t.played|) else t.fadeAt)
    else t
  }

  function EndCall(t: Stream): Stream {
    if t.call.Some? && t.call.value.left == 0 then
      t.(fade := EndStep(t.fade, t.call.value.mode), call := None)
    else t
  }

  // ---- the GUI thread ----

  function GuiStep(s: System, outcome: bool): System {
    match s.pc
    case LaunchIn => s.(new_ := s.new_.(fade := s.new_.fade.(doWeFadeIn := true)), pc := LaunchOut)
    case LaunchOut => s.(old_ := s.old_.(fade := s.old_.fade.(doWeFadeOut := true)), pc := Start)
    case Start => s.(new_ := s.new_.(running := outcome), pc := Poll)
    case Poll =>
      if !s.old_.fade.doWeFadeOut then s.(exitAt := |s.old_.played|, pc := StopOld)
      else if outcome then s.(timedOut := true, pc := ForceNew)
      else s
    case ForceNew =>
      s.(new_ := s.new_.(fade := s.new_.fade.(doWeFadeOut := false, doWeFadeIn := false)), pc := ForceOld)
    case ForceOld =>
      s.(old_ := s.old_.(fade := s.old_.fade.(doWeFadeOut := false, doWeFadeIn := false)), pc := StopOld)
    case StopOld =>
      // `stop` returns when no callback is in progress.
      if s.old_.call.Some? then s else s.(old_ := s.old_.(running := false), pc := Swap)
    case Swap => s.(current := New, deleted := s.deleted + [Old], pc := Returned)
    case Returned => s
  }

  function Step(s: System, e: Event): System {
    match e
    case Gui(outcome) => GuiStep(s, outcome)
    case Begin(Old, n) => s.(old_ := BeginCall(s.old_, n))
    case Begin(New, n) => s.(new_ := BeginCall(s.new_, n))
    case Sample(Old) => s.(old_ := PlaySample(s.old_))
    case Sample(New) => s.(new_ := PlaySample(s.new_))
    case End(Old) => s.(old_ := EndCall(s.old_))
    case End(New) => s.(new_ := EndCall(s.new_))
  }

  function Run(s: System, events: seq<Event>): System {
    if events == [] then s else Step(Run(s, events[..|events| - 1]), events[|events| - 1])
  }

  // After init_FadeAudio: a new stream that does not run yet, and a current stream that may run,
  // be in a callback, or even be fading in.
  predicate Initial(s: System) {
    && s.pc == LaunchIn && !s.timedOut && s.current == Old && s.deleted == []
    && s.new_ == Stream(RESET, false, None, [], None)
    && Waiting(s.old_)
  }

  // A stream that no fade out was asked of.
  predicate Waiting(t: Stream) {
    && !t.fade.fadedOut && !t.fade.doWeFadeOut && t.fade.outCoef == 1.0 && t.fadeAt.None?
    && (t.call.Some? ==> t.call.value.mode == In || t.call.value.mode == Through)
  }

  // ---- what every step keeps, as long as the timer has not expired ----

  // The current stream, once its fade out is launched: after the callback that was in progress at
  // that moment, sample n has the volume of sample n of a fade out, through all callbacks.
  ghost predicate Leaving(t: Stream) {
    match t.fadeAt
    case None =>
      && !t.fade.fadedOut && t.fade.doWeFadeOut && t.fade.outCoef == 1.0
      && (t.call.Some? ==> t.call.value.mode != Silent)
    case Some(m) =>
      && m <= |t.played|
      && (forall i :: m <= i < |t.played| ==> t.played[i] == OutVolume(i - m))
      && (t.call.Some? ==>
           t.call.value.mode == (if t.fade.fadedOut then Silent else Out))
      && (if t.call.Some? && !t.fade.fadedOut
          then t.fade.doWeFadeOut && t.fade.outCoef == OutVolume(|t.played| - m)
          else FadingOut(t.fade, |t.played| - m))
  }

  // The new stream, once its fade in is launched: sample n has the volume of sample n of a fade in.
  ghost predicate Arriving(t: Stream) {
    && (forall i :: 0 <= i < |t.played| ==> t.played[i] == InVolume(i))
    && (t.call.Some? ==> t.call.value.mode == (if t.fade.doWeFadeIn then In else Through))
    && (if t.call.Some? && t.fade.doWeFadeIn
        then !t.fade.fadedOut && !t.fade.doWeFadeOut && t.fade.inCoef == OutVolume(|t.played|)
        else FadingIn(t.fade, |t.played|))
  }

  ghost predicate Fading(s: System) {
    && !s.timedOut && s.pc != ForceNew && s.pc != ForceOld
    && (if s.pc == LaunchIn then s.new_ == Stream(RESET, false, None, [], None) else Arriving(s.new_))
    && (s.pc == LaunchIn || s.pc == LaunchOut || s.pc == Start ==> !s.new_.running && s.new_.call.None?)
    && (if s.pc == LaunchIn || s.pc == LaunchOut then Waiting(s.old_) else Leaving(s.old_))
    && (s.pc == StopOld || s.pc == Swap || s.pc == Returned ==>
         && s.old_.fade.fadedOut && s.old_.fadeAt.Some?
         && s.old_.fadeAt.value <= s.exitAt <= |s.old_.played|
         && OutVolume(s.exitAt - s.old_.fadeAt.value) == 0.0)
  }

  // The three steps of an audio thread.
  ghost predicate AudioStep(t: Stream, u: Stream, n: nat) {
    u == BeginCall(t, n) || u == PlaySample(t) || u == EndCall(t)
  }

  lemma WaitingStep(t: Stream, u: Stream, n: nat)
    requires Waiting(t) && AudioStep(t, u, n)
    ensures Waiting(u)
  {
    hide STEP;
  }

  lemma LeavingStep(t: Stream, u: Stream, n: nat)
    requires Leaving(t) && AudioStep(t, u, n)
    ensures Leaving(u) && |t.played| <= |u.played|
    ensures t.fade.fadedOut ==> u.fade.fadedOut && u.fadeAt == t.fadeAt
  {
    hide STEP, OutVolume;
    VolumeStep(0);
    assert OutVolume(0) == 1.0 by { VolumeAtStart(); }
    if t.fadeAt.Some? {
      VolumeStep(|t.played| - t.fadeAt.value);
    }
  }

  lemma VolumeAtStart()
    ensures OutVolume(0) == 1.0
  {
  }

  lemma ArrivingStep(t: Stream, u: Stream, n: nat)
    requires Arriving(t) && AudioStep(t, u, n)
    ensures Arriving(u)
    ensures !t.running && t.call.None? ==> u == t
    ensures u.running == t.running
  {
    VolumeStep(|t.played|);
  }

  lemma FadingStep(s: System, e: Event)
    requires Fading(s) && !Step(s, e).timedOut
    ensures Fading(Step(s, e))
  {
    hide STEP, OutVolume, AudioStep;
    if e.Gui? {
      LaunchStep(s, e);
    } else if e.who == Old {
      assert AudioStep(s.old_, Step(s, e).old_, if e.Begin? then e.numFrames else 0) by { StepOf(s, e); }
      OldStep(s, Step(s, e), if e.Begin? then e.numFrames else 0);
    } else {
      assert AudioStep(s.new_, Step(s, e).new_, if e.Begin? then e.numFrames else 0) by { StepOf(s, e); }
      NewStep(s, Step(s, e), if e.Begin? then e.numFrames else 0);
    }
  }

  lemma StepOf(s: System, e: Event)
    requires !e.Gui?
    ensures e.who == Old ==> AudioStep(s.old_, Step(s, e).old_, if e.Begin? then e.numFrames else 0)
    ensures e.who == New ==> AudioStep(s.new_, Step(s, e).new_, if e.Begin? then e.numFrames else 0)
  {
  }

  lemma OldStep(s: System, t: System, n: nat)
    requires Fading(s) && t == s.(old_ := t.old_) && AudioStep(s.old_, t.old_, n)
    ensures Fading(t)
  {
    hide Leaving, Arriving, AudioStep, Waiting;
    if s.pc != LaunchIn && s.pc != LaunchOut {
      LeavingStep(s.old_, t.old_, n);
    } else {
      WaitingStep(s.old_, t.old_, n);
    }
  }

  lemma NewStep(s: System, t: System, n: nat)
    requires Fading(s) && t == s.(new_ := t.new_) && AudioStep(s.new_, t.new_, n)
    ensures Fading(t)
  {
    hide Leaving, Arriving, Waiting;
    if s.pc != LaunchIn {
      ArrivingStep(s.new_, t.new_, n);
    }
  }

  lemma LaunchStep(s: System, e: Event)
    requires Fading(s) && e.Gui? && !Step(s, e).timedOut
    ensures Fading(Step(s, e))
  {
  }

  lemma {:induction false} RunFading(s: System, events: seq<Event>)
    requires Initial(s) && !Run(s, events).timedOut
    ensures Fading(Run(s, events))
  {
    if events != [] {
      var before := Run(s, events[..|events| - 1]);
      RunFading(s, events[..|events| - 1]);
      FadingStep(before, events[|events| - 1]);
    }
  }

  // In every interleaving without a timeout, and whatever the buffers of the two streams: sample n
  // of the new stream has volume n * STEP, up to 1; and from its first faded sample on, sample n of
  // the old one has volume 1 - n * STEP, down to 0.
  lemma CrossfadeVolumes(s: System, events: seq<Event>)
    requires Initial(s) && !Run(s, events).timedOut
    ensures var t := Run(s, events).new_; forall i :: 0 <= i < |t.played| ==> t.played[i] == InVolume(i)
    ensures var t := Run(s, events).old_;
      t.fadeAt.None? || (t.fadeAt.value <= |t.played|
        && forall i :: t.fadeAt.value <= i < |t.played| ==> t.played[i] == OutVolume(i - t.fadeAt.value))
  {
    RunFading(s, events);
  }

  // When wait_EndFade has read the lowered flag of the old stream, without a timeout, all that the
  // old stream plays after this moment is silence.
  lemma SilentAfterExit(s: System, events: seq<Event>)
    requires Initial(s)
    requires var t := Run(s, events); !t.timedOut && (t.pc == StopOld || t.pc == Swap || t.pc == Returned)
    ensures var t := Run(s, events);
      t.exitAt <= |t.old_.played| && forall i :: t.exitAt <= i < |t.old_.played| ==> t.old_.played[i] == 0.0
  {
    RunFading(s, events);
    var t := Run(s, events);
    var m := t.old_.fadeAt.value;
    forall i | t.exitAt <= i < |t.old_.played|
      ensures t.old_.played[i] == 0.0
    {
      VolumeStaysNull(t.exitAt - m, i - t.exitAt);
      assert t.old_.played[i] == OutVolume(i - m);
    }
  }

  // ---- what every step keeps, with or without a timeout ----

  // The GUI thread has cancelled the fade in.
  predicate Cancelled(s: System) { s.timedOut && s.pc != ForceNew }

  ghost predicate Handed(s: System) {
    && (s.pc == LaunchIn || s.pc == LaunchOut || s.pc == Start ==>
         !s.timedOut && !s.new_.running && s.new_.call.None?)
    && (s.pc == ForceNew || s.pc == ForceOld ==> s.timedOut) && (s.pc == Poll ==> !s.timedOut)
    && (s.pc == Returned ==> s.current == New && s.deleted == [Old])
    && (s.pc != Returned ==> s.current == Old && s.deleted == [])
    && (s.pc == Swap || s.pc == Returned ==> !s.old_.running && s.old_.call.None?)
    && Beginning(s.new_, s.pc != LaunchIn && !Cancelled(s), Cancelled(s))
  }

  ghost predicate Beginning(t: Stream, fadeIn: bool, cancelled: bool) {
    t.played == [] ==>
      && !t.fade.fadedOut && !t.fade.doWeFadeOut && t.fade.inCoef == 1.0 && t.fade.doWeFadeIn == fadeIn
      && (t.call.Some? ==> t.call.value.mode == In || t.call.value.mode == Through)
      && (t.running || t.call.Some? ==> fadeIn || cancelled)
  }

  lemma BeginningStep(t: Stream, u: Stream, n: nat, fadeIn: bool, cancelled: bool)
    requires Beginning(t, fadeIn, cancelled) && AudioStep(t, u, n) && !(fadeIn && cancelled)
    ensures Beginning(u, fadeIn, cancelled)
    ensures !t.running && t.call.None? ==> u == t
    ensures u.running == t.running
  {
    hide STEP;
  }

  lemma HandedStep(s: System, e: Event)
    requires Handed(s)
    ensures Handed(Step(s, e))
  {
    hide STEP;
    if e.Gui? {
    } else if e.who == New {
      hide BeginCall, PlaySample, EndCall, AudioStep, Beginning;
      StepOf(s, e);
      BeginningStep(s.new_, Step(s, e).new_, if e.Begin? then e.numFrames else 0,
                    s.pc != LaunchIn && !Cancelled(s), Cancelled(s));
    } else {
      hide Beginning;
    }
  }

  lemma {:induction false} RunHanded(s: System, events: seq<Event>)
    requires Initial(s)
    ensures Handed(Run(s, events))
  {
    if events != [] {
      RunHanded(s, events[..|events| - 1]);
      HandedStep(Run(s, events[..|events| - 1]), events[|events| - 1]);
    }
  }

  // Exactly when wait_EndFade has returned, the old stream has been deleted, once, and the new one
  // is current; the old one was stopped before, and no callback of it was in progress.
  lemma DeletedOnce(s: System, events: seq<Event>)
    requires Initial(s)
    ensures var t := Run(s, events);
      && (t.pc == Returned <==> t.deleted == [Old]) && (t.pc == Returned <==> t.current == New)
      && (t.pc != Returned ==> t.deleted == [])
      && (Old in t.deleted ==> !t.old_.running && t.old_.call.None?)
  {
    RunHanded(s, events);
  }

  // ---- after a timeout, and to the end ----

  predicate Unfading(t: Stream) { !t.fade.doWeFadeOut && !t.fade.doWeFadeIn }

  // The flags that the forced stop has lowered stay so.
  ghost predicate Lowered(s: System) {
    && (s.timedOut && s.pc != ForceNew ==> Unfading(s.new_))
    && (s.timedOut && (s.pc == StopOld || s.pc == Swap || s.pc == Returned) ==> Unfading(s.old_))
    && (s.timedOut ==> s.pc != LaunchIn && s.pc != LaunchOut && s.pc != Start && s.pc != Poll)
  }

  lemma LoweredStep(s: System, e: Event)
    requires Lowered(s)
    ensures Lowered(Step(s, e))
  {
    hide ModeOf, SampleGain, Decrease;
  }

  // After a timeout neither stream fades any more once the GUI thread has stopped both fades.
  lemma {:induction false} TimeoutStopsFades(s: System, events: seq<Event>)
    requires Initial(s)
    ensures Lowered(Run(s, events))
  {
    hide Step;
    if events != [] {
      TimeoutStopsFades(s, events[..|events| - 1]);
      LoweredStep(Run(s, events[..|events| - 1]), events[|events| - 1]);
    }
  }

  function Rank(pc: Pc): nat {
    match pc
    case LaunchIn => 0
    case LaunchOut => 1
    case Start => 2
    case Poll => 3
    case ForceNew => 4
    case ForceOld => 5
    case StopOld => 6
    case Swap => 7
    case Returned => 8
  }

  lemma GuiAdvances(s: System)
    requires s.old_.call.None?
    ensures var t := GuiStep(s, true); t.old_.call.None? && (Rank(t.pc) > Rank(s.pc) || t.pc == s.pc == Returned)
  {
  }

  lemma {:induction false} GuiGoesOn(s: System, n: nat)
    requires s.old_.call.None?
    ensures GuiSteps(s, n).old_.call.None? && (Rank(GuiSteps(s, n).pc) >= n || GuiSteps(s, n).pc == Returned)
  {
    hide GuiStep;
    if n > 0 {
      GuiGoesOn(s, n - 1);
      GuiAdvances(GuiSteps(s, n - 1));
    }
  }

  // The GUI thread goes on to the end: it returns as soon as the old stream is in no callback, when the
  // timer expires or the flag of the fade out is down; and it does not look at the timer when it is down.
  lemma GuiReturns(s: System)
    requires s.old_.call.None?
    ensures GuiSteps(s, 8).pc == Returned
    ensures forall outcome :: s.pc == Poll && !s.old_.fade.doWeFadeOut ==>
      GuiStep(s, outcome).pc == StopOld && GuiStep(s, outcome).timedOut == s.timedOut
  {
    GuiGoesOn(s, 8);
  }

  // ---- the first sample ----

  function At(s: System, events: seq<Event>, i: nat): System
    requires i <= |events|
  {
    Run(s, events[..i])
  }

  // Event g cancels the fade in of the new stream.
  ghost predicate CancelsAt(s: System, events: seq<Event>, g: nat) {
    g < |events| && events[g].Gui? && At(s, events, g).pc == ForceNew
  }

  // Event b begins the callback of the new stream that is in progress before event i.
  ghost predicate CallOf(s: System, events: seq<Event>, b: nat, i: nat) {
    && b < i <= |events| && events[b].Begin? && events[b].who == New && At(s, events, b).new_.call.None?
    && forall j :: b < j <= i ==> At(s, events, j).new_.call.Some?
  }

  // Event i plays the first sample of the new stream.
  ghost predicate FirstAt(s: System, events: seq<Event>, i: nat) {
    i < |events| && At(s, events, i).new_.played == [] && At(s, events, i + 1).new_.played != []
  }

  // The callback that plays the first sample begins after the fade in was cancelled.
  ghost predicate BeginsLate(s: System, events: seq<Event>) {
    exists g, b, i: nat :: CancelsAt(s, events, g) && g < b && CallOf(s, events, b, i) && FirstAt(s, events, i)
  }

  lemma AtStep(s: System, events: seq<Event>, i: nat)
    requires i < |events|
    ensures At(s, events, i + 1) == Step(At(s, events, i), events[i])
  {
    assert events[..i + 1][..i] == events[..i];
  }

  lemma HandedAt(s: System, events: seq<Event>, i: nat)
    requires Initial(s) && i <= |events|
    ensures Handed(At(s, events, i))
  {
    RunHanded(s, events[..i]);
  }

  lemma CancelStep(s: System, e: Event)
    requires Handed(s)
    ensures Cancelled(Step(s, e)) <==> Cancelled(s) || (e.Gui? && s.pc == ForceNew)
  {
    hide Beginning;
  }

  lemma {:induction false} CancelledExactly(s: System, events: seq<Event>, n: nat)
    requires Initial(s) && n <= |events|
    ensures Cancelled(At(s, events, n)) <==> exists g: nat :: g < n && CancelsAt(s, events, g)
  {
    hide Handed, Step;
    if n > 0 {
      CancelledExactly(s, events, n - 1);
      HandedAt(s, events, n - 1);
      AtStep(s, events, n - 1);
      CancelStep(At(s, events, n - 1), events[n - 1]);
      assert CancelsAt(s, events, n - 1) <==> events[n - 1].Gui? && At(s, events, n - 1).pc == ForceNew;
    }
  }

  lemma RunningStep(s: System, e: Event)
    requires Handed(s)
    ensures var t := Step(s, e);
      && (t.new_.running <==> (s.pc == Start && e == Gui(true)) || s.new_.running)
      && (t.old_.running <==> s.old_.running && !(e.Gui? && s.pc == StopOld && s.old_.call.None?))
      && (t.pc == Swap || t.pc == Returned <==>
            s.pc == Swap || s.pc == Returned || (e.Gui? && s.pc == StopOld && s.old_.call.None?))
  {
    hide Beginning, ModeOf, SampleGain, SampleStep, EndStep;
  }

  // The new stream runs exactly when its `start` has succeeded, and the old one, if it did, exactly until
  // the GUI thread has stopped it.
  lemma {:induction false} RunningExactly(s: System, events: seq<Event>, n: nat)
    requires Initial(s) && n <= |events|
    ensures At(s, events, n).new_.running <==>
      exists g: nat :: g < n && events[g] == Gui(true) && At(s, events, g).pc == Start
    ensures At(s, events, n).old_.running <==>
      s.old_.running && At(s, events, n).pc != Swap && At(s, events, n).pc != Returned
  {
    hide Step, Handed;
    if n > 0 {
      RunningExactly(s, events, n - 1);
      HandedAt(s, events, n - 1);
      AtStep(s, events, n - 1);
      RunningStep(At(s, events, n - 1), events[n - 1]);
    }
  }

  // What one step does to the callback and the samples of the new stream.
  lemma CallStep(s: System, e: Event)
    ensures var t, u := s.new_, Step(s, e).new_;
      && t.played <= u.played
      && (t.call.None? && u.call.Some? ==>
           e.Begin? && e.who == New && t.running && u.call.value.mode == ModeOf(t.fade))
      && (t.call.Some? && u.call.Some? ==> u.call.value.mode == t.call.value.mode)
      && (t.played != u.played ==> t.call.Some? && u.played == t.played + [SampleGain(t.fade, t.call.value.mode)])
  {
    hide ModeOf, SampleStep, EndStep, SampleGain;
  }

  lemma {:induction false} CallMode(s: System, events: seq<Event>, b: nat, i: nat)
    requires CallOf(s, events, b, i)
    ensures At(s, events, b).new_.running
    ensures At(s, events, i).new_.call.value.mode == ModeOf(At(s, events, b).new_.fade)
  {
    hide Step, ModeOf, At;
    AtStep(s, events, i - 1);
    CallStep(At(s, events, i - 1), events[i - 1]);
    if i > b + 1 {
      CallMode(s, events, b, i - 1);
    }
  }

  lemma {:induction false} CallHasBegin(s: System, events: seq<Event>, i: nat) returns (b: nat)
    requires Initial(s) && i <= |events| && At(s, events, i).new_.call.Some?
    ensures CallOf(s, events, b, i)
  {
    hide Step;
    assert i > 0;
    AtStep(s, events, i - 1);
    CallStep(At(s, events, i - 1), events[i - 1]);
    if At(s, events, i - 1).new_.call.Some? {
      b := CallHasBegin(s, events, i - 1);
    } else {
      b := i - 1;
    }
  }

  lemma {:induction false} HasFirst(s: System, events: seq<Event>, n: nat) returns (i: nat)
    requires Initial(s) && n <= |events| && At(s, events, n).new_.played != []
    ensures i < n && FirstAt(s, events, i)
  {
    hide Step;
    assert n > 0;
    if At(s, events, n - 1).new_.played == [] {
      i := n - 1;
    } else {
      i := HasFirst(s, events, n - 1);
    }
  }

  lemma {:induction false} PlayedGrows(s: System, events: seq<Event>, i: nat, n: nat)
    requires i <= n <= |events|
    ensures At(s, events, i).new_.played <= At(s, events, n).new_.played
  {
    hide Step, At;
    if i < n {
      PlayedGrows(s, events, i, n - 1);
      AtStep(s, events, n - 1);
      CallStep(At(s, events, n - 1), events[n - 1]);
    }
  }

  // The callback that plays the first sample decides whether it is silent.
  lemma FirstSampleOf(s: System, events: seq<Event>, b: nat, i: nat)
    requires Initial(s) && FirstAt(s, events, i) && CallOf(s, events, b, i)
    ensures Run(s, events).new_.played != []
    ensures Run(s, events).new_.played[0] == 0.0 <==> !Cancelled(At(s, events, b))
  {
    hide Step, Run;
    CallMode(s, events, b, i);
    HandedAt(s, events, b);
    HandedAt(s, events, i);
    PlayedGrows(s, events, b, i);
    AtStep(s, events, i);
    CallStep(At(s, events, i), events[i]);
    PlayedGrows(s, events, i + 1, |events|);
    assert events[..|events|] == events;
  }

  // The first sample of the new stream is silent exactly when its callback did not begin after the step
  // that cancels the fade in, which comes only after the timer has expired.
  lemma FirstSampleSilent(s: System, events: seq<Event>)
    requires Initial(s) && Run(s, events).new_.played != []
    ensures Run(s, events).new_.played[0] == 0.0 <==> !BeginsLate(s, events)
    ensures BeginsLate(s, events) ==> Run(s, events).timedOut
  {
    hide Step, Initial, Handed, Run, CancelsAt, CallOf, FirstAt;
    assert events[..|events|] == events;
    var i := HasFirst(s, events, |events|);
    PlaysInCall(s, events, i);
    var b := CallHasBegin(s, events, i);
    FirstSampleOf(s, events, b, i);
    CancelledBefore(s, events, b, i);
    if BeginsLate(s, events) {
      var g, b', i': nat :|
        CancelsAt(s, events, g) && g < b' && CallOf(s, events, b', i') && FirstAt(s, events, i');
      FirstSampleOf(s, events, b', i');
      CancelledBefore(s, events, b', i');
    }
  }

  lemma PlaysInCall(s: System, events: seq<Event>, i: nat)
    requires FirstAt(s, events, i)
    ensures At(s, events, i).new_.call.Some?
  {
    AtStep(s, events, i);
    CallStep(At(s, events, i), events[i]);
  }

  lemma CancelledBefore(s: System, events: seq<Event>, b: nat, i: nat)
    requires Initial(s) && CallOf(s, events, b, i)
    ensures Cancelled(At(s, events, b)) <==> exists g: nat :: g < b && CancelsAt(s, events, g)
    ensures (exists g: nat :: g < b && CancelsAt(s, events, g)) ==> Run(s, events).timedOut
  {
    hide Step, Run, Initial, CancelsAt;
    CancelledExactly(s, events, b);
    CancelledExactly(s, events, |events|);
    assert events[..|events|] == events;
  }

  // Such a run: the timer expires before the first callback of the new stream, which then begins
  // at full volume.
  lemma LateFirstSample(s: System)
    requires Initial(s) && s.old_.call.None?
    ensures exists events: seq<Event> :: Run(s, events).new_.played == [1.0]
  {
    var events := FiveGuiSteps(s);
    LaunchAndExpire(s);
    hide Run, GuiStep, Step;
    RunMore(s, events, Begin(New, 1));
    RunMore(s, events + [Begin(New, 1)], Sample(New));
    LoudSample(GuiSteps(s, 5));
    assert Run(s, events + [Begin(New, 1)] + [Sample(New)]).new_.played == [1.0];
  }

  lemma LoudSample(s: System)
    requires s.new_ == Stream(RESET, true, None, [], None)
    ensures Step(Step(s, Begin(New, 1)), Sample(New)).new_.played == [1.0]
  {
  }

  function GuiSteps(s: System, n: nat): System {
    if n == 0 then s else GuiStep(GuiSteps(s, n - 1), true)
  }

  lemma FiveGuiSteps(s: System) returns (events: seq<Event>)
    ensures Run(s, events) == GuiSteps(s, 5)
  {
    events := [];
    var i := 0;
    while i < 5
      invariant i <= 5 && Run(s, events) == GuiSteps(s, i)
    {
      RunMore(s, events, Gui(true));
      events := events + [Gui(true)];
      i := i + 1;
    }
  }

  lemma LaunchAndExpire(s: System)
    requires Initial(s)
    ensures GuiSteps(s, 5).new_ == Stream(RESET, true, None, [], None)
  {
    assert GuiSteps(s, 1) == GuiStep(GuiSteps(s, 0), true);
    assert GuiSteps(s, 2) == GuiStep(GuiSteps(s, 1), true);
    assert GuiSteps(s, 3).pc == Poll && GuiSteps(s, 3).old_.fade.doWeFadeOut;
    assert GuiSteps(s, 4) == GuiStep(GuiSteps(s, 3), true);
  }

  lemma RunMore(s: System, events: seq<Event>, e: Event)
    ensures Run(s, events + [e]) == Step(Run(s, events), e)
  {
    assert (events + [e])[..|events|] == events;
  }

  // ---- one swap after the other ----

  // No fade out is ever asked of the new stream, so that it may be the current stream of the next swap.
  lemma {:induction false} NewStreamWaits(s: System, events: seq<Event>)
    requires Initial(s)
    ensures Waiting(Run(s, events).new_)
  {
    hide Step;
    if events != [] {
      var before, e := Run(s, events[..|events| - 1]), events[|events| - 1];
      NewStreamWaits(s, events[..|events| - 1]);
      NewStreamStep(before, e);
    }
  }

  lemma NewStreamStep(s: System, e: Event)
    requires Waiting(s.new_)
    ensures Waiting(Step(s, e).new_)
  {
    match e {
      case Gui(_) => hide ModeOf, SampleStep, EndStep;
      case Begin(who, n) =>
        if who == New {
          WaitingStep(s.new_, Step(s, e).new_, n);
        }
      case Sample(who) =>
        if who == New {
          WaitingStep(s.new_, Step(s, e).new_, 0);
        }
      case End(who) =>
        if who == New {
          WaitingStep(s.new_, Step(s, e).new_, 0);
        }
    }
  }

  // init_FadeAudio of the next swap: what was the new stream is current.
  function NextSwap(s: System): System {
    System(LaunchIn, s.new_, Stream(RESET, false, None, [], None), false, 0, Old, [])
  }

  // The state at the beginning of swap number |runs|, after these runs of the swaps before it
  function SwapStart(s: System, runs: seq<seq<Event>>): System
    decreases |runs|
  {
    if runs == [] then s
    else NextSwap(Run(SwapStart(s, runs[..|runs| - 1]), runs[|runs| - 1]))
  }

  lemma {:induction false} EverySwapIsInitial(s: System, runs: seq<seq<Event>>)
    requires Initial(s)
    ensures Initial(SwapStart(s, runs))
    decreases |runs|
  {
    hide Run;
    if runs != [] {
      EverySwapIsInitial(s, runs[..|runs| - 1]);
      NewStreamWaits(SwapStart(s, runs[..|runs| - 1]), runs[|runs| - 1]);
    }
  }

  // In any sequence of hot swaps, the results above hold of each.
  lemma EverySwap(s: System, runs: seq<seq<Event>>, events: seq<Event>)
    requires Initial(s)
    ensures var t := Run(SwapStart(s, runs), events);
      && (t.pc == Returned <==> t.deleted == [Old]) && (t.pc == Returned <==> t.current == New)
      && (Old in t.deleted ==> !t.old_.running && t.old_.call.None?)
      && (t.new_.played != [] ==> (t.new_.played[0] == 0.0 <==> !BeginsLate(SwapStart(s, runs), events)))
      && (!t.timedOut ==> forall i :: 0 <= i < |t.new_.played| ==> t.new_.played[i] == InVolume(i))
      && (!t.timedOut && t.pc == Returned ==>
           t.exitAt <= |t.old_.played| && forall i :: t.exitAt <= i < |t.old_.played| ==> t.old_.played[i] == 0.0)
  {
    hide Run, Initial, SwapStart;
    var start := SwapStart(s, runs);
    EverySwapIsInitial(s, runs);
    DeletedOnce(start, events);
    var t := Run(start, events);
    if t.new_.played != [] {
      FirstSampleSilent(start, events);
    }
    if !t.timedOut {
      CrossfadeVolumes(start, events);
      if t.pc == Returned {
        SilentAfterExit(start, events);
      }
    }
  }
}
