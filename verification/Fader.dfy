// The fade of one audio stream: src/Audio/AudioFader_Implementation.cpp, with gains as real
// numbers. One callback of the audio thread is cut into three kinds of steps, so that module
// Crossfade can interleave them with the GUI thread: it chooses what to do from the flags, plays
// its samples one by one, and publishes the flags.
module Fader {

  const STEP := 0.00003255  // kFadeCoefficient

  datatype Fade = Fade(doWeFadeOut: bool, doWeFadeIn: bool, inCoef: real, outCoef: real,
                       fadedOut: bool, process: nat)

  const RESET := Fade(false, false, 1.0, 1.0, false, 0)

  datatype Mode = Silent | Out | In | Through

  function ModeOf(f: Fade): Mode {
    if f.fadedOut then Silent else if f.doWeFadeOut then Out else if f.doWeFadeIn then In else Through
  }

  function Decrease(coef: real): real { if coef > STEP then coef - STEP else 0.0 }

  // The gain of the next sample, and the coefficients after it.
  function SampleGain(f: Fade, mode: Mode): real {
    match mode
    case Silent => 0.0
    case Out => f.outCoef
    case In => 1.0 - f.inCoef
    case Through => 1.0
  }

  function SampleStep(f: Fade, mode: Mode): Fade {
    match mode
    case Out => f.(outCoef := Decrease(f.outCoef))
    case In => f.(inCoef := Decrease(f.inCoef))
    case _ => f
  }

  // The end of a callback.
  function EndStep(f: Fade, mode: Mode): Fade {
    match mode
    case Out =>
      if f.outCoef <= 0.0 then f.(fadedOut := true, process := 0, doWeFadeOut := false)
      else f.(process := f.process + 1)
    case In =>
      if f.inCoef <= 0.0 then f.(inCoef := 1.0, process := 0, doWeFadeIn := false)
      else f.(process := f.process + 1)
    case _ => f
  }

  function Samples(f: Fade, mode: Mode, n: nat): Fade {
    if n == 0 then f else SampleStep(Samples(f, mode, n - 1), mode)
  }

  function Gain(f: Fade, mode: Mode, n: nat): real { SampleGain(Samples(f, mode, n), mode) }

  // One whole callback that nothing interrupts.
  function Callback(f: Fade, numFrames: nat): Fade {
    EndStep(Samples(f, ModeOf(f), numFrames), ModeOf(f))
  }

  class AudioFader {
    var doWeFadeOut: bool
    var doWeFadeIn: bool
    var inCoef: real
    var outCoef: real
    var fadedOut: bool
    var numberOfFadeProcess: nat

    ghost function State(): Fade
      reads this
    {
      Fade(doWeFadeOut, doWeFadeIn, inCoef, outCoef, fadedOut, numberOfFadeProcess)
    }

    constructor ()
      ensures State() == RESET
    {
      numberOfFadeProcess, inCoef, outCoef := 0, 1.0, 1.0;
      fadedOut, doWeFadeOut, doWeFadeIn := false, false, false;
    }

    method ResetValues()
      modifies this
      ensures State() == RESET
    {
      numberOfFadeProcess := 0;
      inCoef := 1.0;
      outCoef := 1.0;
      fadedOut := false;
      doWeFadeOut := false;
      doWeFadeIn := false;
    }

    method StopFade()
      modifies this`doWeFadeOut, this`doWeFadeIn
      ensures State() == old(State()).(doWeFadeOut := false, doWeFadeIn := false)
    {
      doWeFadeOut := false;
      doWeFadeIn := false;
    }

    // The first branch of crossfade_Calcul.
    method Silence(numFrames: nat, numOutputs: nat, outBuffer: array2<real>)
      requires numOutputs <= outBuffer.Length0 && numFrames <= outBuffer.Length1
      modifies outBuffer
      ensures forall c, k :: 0 <= c < outBuffer.Length0 && 0 <= k < outBuffer.Length1 ==>
        outBuffer[c, k] == if k < numFrames && c < numOutputs then 0.0 else old(outBuffer[c, k])
    {
      var i := 0;
      while i < numOutputs
        invariant 0 <= i <= numOutputs
        invariant forall c, k :: 0 <= c < outBuffer.Length0 && 0 <= k < outBuffer.Length1 ==>
          outBuffer[c, k] == if k < numFrames && c < i then 0.0 else old(outBuffer[c, k])
        modifies outBuffer
      {
        var j := 0;
        while j < numFrames
          invariant 0 <= j <= numFrames
          invariant forall c, k :: 0 <= c < outBuffer.Length0 && 0 <= k < outBuffer.Length1 ==>
            outBuffer[c, k] == if (k < numFrames && c < i) || (c == i && k < j)
              then 0.0 else old(outBuffer[c, k])
          modifies outBuffer
        {
          outBuffer[i, j] := 0.0;
          j := j + 1;
        }
        i := i + 1;
      }
    }

    // crossfade_Calcul, in place on the buffers of the channels
    method CrossfadeCalcul(numFrames: nat, numOutputs: nat, outBuffer: array2<real>)
      requires numOutputs <= outBuffer.Length0 && numFrames <= outBuffer.Length1
      modifies this, outBuffer
      ensures State() == Callback(old(State()), numFrames)
      ensures forall c, k :: 0 <= c < outBuffer.Length0 && 0 <= k < outBuffer.Length1 ==>
        outBuffer[c, k] == if k < numFrames && c < numOutputs
          then old(outBuffer[c, k]) * Gain(old(State()), ModeOf(old(State())), k)
          else old(outBuffer[c, k])
    {
      hide STEP;
      ghost var f := State();
      if fadedOut {
        Silence(numFrames, numOutputs, outBuffer);
        Unfaded(f, Silent, numFrames);
      } else if doWeFadeOut {
        var j := 0;
        while j < numFrames
          invariant 0 <= j <= numFrames
          invariant State() == Samples(f, Out, j)
          invariant forall c, k :: 0 <= c < outBuffer.Length0 && 0 <= k < outBuffer.Length1 ==>
            outBuffer[c, k] == if k < j && c < numOutputs
              then old(outBuffer[c, k]) * Gain(f, Out, k) else old(outBuffer[c, k])
        {
          var i := 0;
          while i < numOutputs
            invariant 0 <= i <= numOutputs
            invariant forall c, k :: 0 <= c < outBuffer.Length0 && 0 <= k < outBuffer.Length1 ==>
              outBuffer[c, k] == if (k < j && c < numOutputs) || (k == j && c < i)
                then old(outBuffer[c, k]) * Gain(f, Out, k) else old(outBuffer[c, k])
            modifies outBuffer
          {
            outBuffer[i, j] := outBuffer[i, j] * outCoef;
            i := i + 1;
          }
          outCoef := if outCoef > STEP then outCoef - STEP else 0.0;
          j := j + 1;
        }
        if outCoef <= 0.0 {
          fadedOut := true;
          numberOfFadeProcess := 0;
          doWeFadeOut := false;
        } else {
          numberOfFadeProcess := numberOfFadeProcess + 1;
        }
      } else if doWeFadeIn {
        var j := 0;
        while j < numFrames
          invariant 0 <= j <= numFrames
          invariant State() == Samples(f, In, j)
          invariant forall c, k :: 0 <= c < outBuffer.Length0 && 0 <= k < outBuffer.Length1 ==>
            outBuffer[c, k] == if k < j && c < numOutputs
              then old(outBuffer[c, k]) * Gain(f, In, k) else old(outBuffer[c, k])
        {
          var i := 0;
          while i < numOutputs
            invariant 0 <= i <= numOutputs
            invariant forall c, k :: 0 <= c < outBuffer.Length0 && 0 <= k < outBuffer.Length1 ==>
              outBuffer[c, k] == if (k < j && c < numOutputs) || (k == j && c < i)
                then old(outBuffer[c, k]) * Gain(f, In, k) else old(outBuffer[c, k])
            modifies outBuffer
          {
            outBuffer[i, j] := outBuffer[i, j] * (1.0 - inCoef);
            i := i + 1;
          }
          inCoef := if inCoef > STEP then inCoef - STEP else 0.0;
          j := j + 1;
        }
        if inCoef <= 0.0 {
          inCoef := 1.0;
          numberOfFadeProcess := 0;
          doWeFadeIn := false;
        } else {
          numberOfFadeProcess := numberOfFadeProcess + 1;
        }
      } else {
        Unfaded(f, Through, numFrames);
      }
    }
  }

  lemma {:induction false} Unfaded(f: Fade, mode: Mode, n: nat)
    requires mode == Silent || mode == Through
    ensures Samples(f, mode, n) == f
    ensures forall k: nat :: k < n ==> Gain(f, mode, k) == if mode == Silent then 0.0 else 1.0
  {
    if n > 0 {
      Unfaded(f, mode, n - 1);
    }
  }

  // ---- the volume over a whole stream, whatever its buffers ----

  // Volume of sample n of a fade out: 1 - n * STEP, down to 0.
  function OutVolume(n: nat): real {
    if n as real * STEP < 1.0 then 1.0 - n as real * STEP else 0.0
  }

  function InVolume(n: nat): real { 1.0 - OutVolume(n) }

  // n samples after the beginning of a fade out; then of a fade in.
  ghost predicate FadingOut(f: Fade, n: nat) {
    if f.fadedOut then !f.doWeFadeOut && OutVolume(n) == 0.0
    else f.doWeFadeOut && f.outCoef == OutVolume(n) > 0.0
  }

  ghost predicate FadingIn(f: Fade, n: nat) {
    && !f.fadedOut && !f.doWeFadeOut
    && if f.doWeFadeIn then f.inCoef == OutVolume(n) > 0.0 else OutVolume(n) == 0.0
  }

  lemma VolumeStep(n: nat)
    ensures Decrease(OutVolume(n)) == OutVolume(n + 1)
    ensures 0.0 <= OutVolume(n) <= 1.0
    ensures OutVolume(n) == 0.0 ==> OutVolume(n + 1) == 0.0
  {
    assert (n + 1) as real * STEP == n as real * STEP + STEP;
  }

  lemma {:induction false} VolumeStaysNull(n: nat, k: nat)
    requires OutVolume(n) == 0.0
    ensures OutVolume(n + k) == 0.0
  {
    if k > 0 {
      VolumeStaysNull(n, k - 1);
      VolumeStep(n + k - 1);
    }
  }

  lemma {:induction false} SamplesFade(f: Fade, mode: Mode, n: nat, k: nat)
    requires mode == Out ==> f.outCoef == OutVolume(n)
    requires mode == In ==> f.inCoef == OutVolume(n)
    requires mode == Out || mode == In
    ensures Samples(f, mode, k) ==
      if mode == Out then f.(outCoef := OutVolume(n + k)) else f.(inCoef := OutVolume(n + k))
    ensures Gain(f, mode, k) == if mode == Out then OutVolume(n + k) else InVolume(n + k)
  {
    if k > 0 {
      SamplesFade(f, mode, n, k - 1);
      VolumeStep(n + k - 1);
    }
  }

  // The gains of successive callbacks.
  function CallbackGains(f: Fade, numFrames: nat): seq<real> {
    seq(numFrames, k requires 0 <= k < numFrames => Gain(f, ModeOf(f), k))
  }

  function Total(buffers: seq<nat>): nat {
    if buffers == [] then 0 else buffers[0] + Total(buffers[1..])
  }

  function StreamGains(f: Fade, buffers: seq<nat>): (r: seq<real>)
    ensures |r| == Total(buffers)
    decreases |buffers|
  {
    if buffers == [] then []
    else CallbackGains(f, buffers[0]) + StreamGains(Callback(f, buffers[0]), buffers[1..])
  }

  function StreamEnd(f: Fade, buffers: seq<nat>): Fade
    decreases |buffers|
  {
    if buffers == [] then f else StreamEnd(Callback(f, buffers[0]), buffers[1..])
  }

  lemma OutCallback(f: Fade, n: nat, numFrames: nat)
    requires FadingOut(f, n)
    ensures FadingOut(Callback(f, numFrames), n + numFrames)
    ensures forall k: nat :: k < numFrames ==> Gain(f, ModeOf(f), k) == OutVolume(n + k)
  {
    if f.fadedOut {
      forall k: nat | k <= numFrames
        ensures Gain(f, Silent, k) == OutVolume(n + k)
      {
        Unfaded(f, Silent, k + 1);
        VolumeStaysNull(n, k);
      }
      Unfaded(f, Silent, numFrames);
      VolumeStaysNull(n, numFrames);
    } else {
      forall k: nat | k <= numFrames
        ensures Gain(f, Out, k) == OutVolume(n + k)
      {
        SamplesFade(f, Out, n, k);
      }
      SamplesFade(f, Out, n, numFrames);
      VolumeStep(n + numFrames);
    }
  }

  lemma InCallback(f: Fade, n: nat, numFrames: nat)
    requires FadingIn(f, n)
    ensures FadingIn(Callback(f, numFrames), n + numFrames)
    ensures forall k: nat :: k < numFrames ==> Gain(f, ModeOf(f), k) == InVolume(n + k)
  {
    if !f.doWeFadeIn {
      forall k: nat | k <= numFrames
        ensures Gain(f, Through, k) == InVolume(n + k)
      {
        Unfaded(f, Through, k + 1);
        VolumeStaysNull(n, k);
      }
      Unfaded(f, Through, numFrames);
      VolumeStaysNull(n, numFrames);
    } else {
      forall k: nat | k <= numFrames
        ensures Gain(f, In, k) == InVolume(n + k)
      {
        SamplesFade(f, In, n, k);
      }
      SamplesFade(f, In, n, numFrames);
      VolumeStep(n + numFrames);
    }
  }

  // However the stream is cut into buffers, sample n has the volume of sample n of the fade, and
  // the flag is lowered (for ever silent, or at full volume) as soon as the volume is reached.
  lemma {:induction false} FadeOutStream(f: Fade, n: nat, buffers: seq<nat>)
    requires FadingOut(f, n)
    ensures forall k :: 0 <= k < Total(buffers) ==> StreamGains(f, buffers)[k] == OutVolume(n + k)
    ensures FadingOut(StreamEnd(f, buffers), n + Total(buffers))
    decreases |buffers|
  {
    if buffers != [] {
      OutCallback(f, n, buffers[0]);
      FadeOutStream(Callback(f, buffers[0]), n + buffers[0], buffers[1..]);
    }
  }

  lemma {:induction false} FadeInStream(f: Fade, n: nat, buffers: seq<nat>)
    requires FadingIn(f, n)
    ensures forall k :: 0 <= k < Total(buffers) ==> StreamGains(f, buffers)[k] == InVolume(n + k)
    ensures FadingIn(StreamEnd(f, buffers), n + Total(buffers))
    decreases |buffers|
  {
    if buffers != [] {
      InCallback(f, n, buffers[0]);
      FadeInStream(Callback(f, buffers[0]), n + buffers[0], buffers[1..]);
    }
  }

  // Two streams with any buffers: the gains add up to 1 at every sample.
  lemma Complementary(buffersOut: seq<nat>, buffersIn: seq<nat>, k: nat)
    requires k < Total(buffersOut) && k < Total(buffersIn)
    ensures StreamGains(RESET.(doWeFadeOut := true), buffersOut)[k]
      + StreamGains(RESET.(doWeFadeIn := true), buffersIn)[k] == 1.0
  {
    FadeOutStream(RESET.(doWeFadeOut := true), 0, buffersOut);
    FadeInStream(RESET.(doWeFadeIn := true), 0, buffersIn);
  }

  // The fade lasts 30722 samples, the least number n with n * STEP >= 1; its flag is lowered by
  // the first callback that reaches them.
  lemma FadeEnds(buffers: seq<nat>)
    ensures StreamEnd(RESET.(doWeFadeOut := true), buffers).doWeFadeOut <==> Total(buffers) < 30722
    ensures StreamEnd(RESET.(doWeFadeIn := true), buffers).doWeFadeIn <==> Total(buffers) < 30722
  {
    FadeOutStream(RESET.(doWeFadeOut := true), 0, buffers);
    FadeInStream(RESET.(doWeFadeIn := true), 0, buffers);
  }

  // All fields after n samples of a fade, in so many callbacks
  function InAfter(n: nat, callbacks: nat): Fade {
    if OutVolume(n) > 0.0 then RESET.(doWeFadeIn := true, inCoef := OutVolume(n), process := callbacks) else RESET
  }

  function OutAfter(n: nat, callbacks: nat): Fade {
    if OutVolume(n) > 0.0 then RESET.(doWeFadeOut := true, outCoef := OutVolume(n), process := callbacks)
    else RESET.(fadedOut := true, outCoef := 0.0)
  }

  lemma InAfterCallback(n: nat, callbacks: nat, numFrames: nat)
    ensures Callback(InAfter(n, callbacks), numFrames) == InAfter(n + numFrames, callbacks + 1)
  {
    var f := InAfter(n, callbacks);
    VolumeStep(n);
    VolumeStep(n + numFrames);
    if OutVolume(n) > 0.0 {
      SamplesFade(f, In, n, numFrames);
    } else {
      Unfaded(f, Through, numFrames);
      VolumeStaysNull(n, numFrames);
    }
  }

  lemma OutAfterCallback(n: nat, callbacks: nat, numFrames: nat)
    ensures Callback(OutAfter(n, callbacks), numFrames) == OutAfter(n + numFrames, callbacks + 1)
  {
    var f := OutAfter(n, callbacks);
    VolumeStep(n);
    VolumeStep(n + numFrames);
    if OutVolume(n) > 0.0 {
      SamplesFade(f, Out, n, numFrames);
    } else {
      Unfaded(f, Silent, numFrames);
      VolumeStaysNull(n, numFrames);
    }
  }

  lemma {:induction false} StreamAfter(n: nat, callbacks: nat, buffers: seq<nat>)
    ensures StreamEnd(InAfter(n, callbacks), buffers) == InAfter(n + Total(buffers), callbacks + |buffers|)
    ensures StreamEnd(OutAfter(n, callbacks), buffers) == OutAfter(n + Total(buffers), callbacks + |buffers|)
    decreases |buffers|
  {
    hide InAfter, OutAfter, Callback;
    if buffers != [] {
      InAfterCallback(n, callbacks, buffers[0]);
      OutAfterCallback(n, callbacks, buffers[0]);
      StreamAfter(n + buffers[0], callbacks + 1, buffers[1..]);
    }
  }

  // The fields while a fade lasts, with the number of its callbacks; a fade in that has ended leaves the
  // fields as they were before it, a fade out leaves a stream that is silent.
  lemma FadeFields(buffers: seq<nat>)
    ensures StreamEnd(RESET.(doWeFadeIn := true), buffers) ==
      if Total(buffers) < 30722 then
        Fade(false, true, 1.0 - Total(buffers) as real * STEP, 1.0, false, |buffers|)
      else RESET
    ensures StreamEnd(RESET.(doWeFadeOut := true), buffers) ==
      if Total(buffers) < 30722 then
        Fade(true, false, 1.0, 1.0 - Total(buffers) as real * STEP, false, |buffers|)
      else Fade(false, false, 1.0, 0.0, true, 0)
  {
    StreamAfter(0, 0, buffers);
    assert InAfter(0, 0) == RESET.(doWeFadeIn := true) && OutAfter(0, 0) == RESET.(doWeFadeOut := true);
  }
}
