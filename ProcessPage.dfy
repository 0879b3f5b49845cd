// app/process/page.tsx: the simulated processing run. `processOCR` walks five
// steps; in step i it names the step, then sets the progress to every second
// integer from the `progress` its closure captured up to the step's target.
// Timers are left out: each `setProgress` and `setCurrentStep` is one state
// change, recorded in order in a trace of everything the page showed.

module ProcessPage {
  import opened Types

  const Steps: seq<string> := ["파일 업로드 중...", "PDF 분석 중...", "텍스트 추출 중...", "레이아웃 분석 중...", "결과 생성 중..."]
  const DoneLabel: string := "완료!"

  /** `((i + 1) / steps.length) * 100`; with five steps these products are
      exactly 20, 40, 60, 80 and 100. */
  function Target(i: nat): (t: int)
    requires i < |Steps|
    ensures t == 20 * (i + 1)
  {
    (i + 1) * 100 / |Steps|
  }

  /** The values `for (let j = first; j <= limit; j += 2)` passes to
      `setProgress`. */
  function Ramp(first: int, limit: int): (r: seq<int>)
    decreases if first <= limit then limit - first + 1 else 0
  {
    if first > limit then [] else [first] + Ramp(first + 2, limit)
  }

  /** A ramp starts at `first`, climbs by exactly 2, stays within
      [first, limit], and reaches `limit` when the distance is even. */
  lemma {:induction false} RampShape(first: int, limit: int)
    ensures |Ramp(first, limit)| == if first <= limit then (limit - first) / 2 + 1 else 0
    ensures forall k | 0 <= k < |Ramp(first, limit)| :: Ramp(first, limit)[k] == first + 2 * k
    ensures forall k | 0 <= k < |Ramp(first, limit)| :: first <= Ramp(first, limit)[k] <= limit
    ensures first <= limit && (limit - first) % 2 == 0 ==> Ramp(first, limit)[|Ramp(first, limit)| - 1] == limit
    decreases if first <= limit then limit - first + 1 else 0
  {
    if first <= limit {
      RampShape(first + 2, limit);
      var r := Ramp(first, limit);
      assert r == [first] + Ramp(first + 2, limit);
      forall k | 0 <= k < |r| ensures r[k] == first + 2 * k {
        if k > 0 { assert r[k] == Ramp(first + 2, limit)[k - 1]; }
      }
    }
  }

  /** Every value shown during the first `n` steps, when each step ramps
      from the same `captured` value. */
  function Schedule(captured: int, n: nat): (r: seq<int>)
    requires n <= |Steps|
  {
    if n == 0 then [] else Schedule(captured, n - 1) + Ramp(captured, Target(n - 1))
  }

  /** The last element of `s`, or `d` when `s` is empty. */
  function LastOr(s: seq<int>, d: int): (last: int) {
    if s == [] then d else s[|s| - 1]
  }

  /** The progress after `n` steps when each step ramps from the progress
      reached so far. */
  function LiveEnd(start: int, n: nat): (p: int)
    requires n <= |Steps|
  {
    if n == 0 then start
    else
      var p := LiveEnd(start, n - 1);
      LastOr(Ramp(p, Target(n - 1)), p)
  }

  /** Every value shown during the first `n` steps when each step ramps
      from the progress reached so far. */
  function LiveSchedule(start: int, n: nat): (r: seq<int>)
    requires n <= |Steps|
  {
    if n == 0 then [] else LiveSchedule(start, n - 1) + Ramp(LiveEnd(start, n - 1), Target(n - 1))
  }

  predicate NonDecreasing(s: seq<int>) {
    forall a, b | 0 <= a < b < |s| :: s[a] <= s[b]
  }

  /** With live ramps the progress never goes back, and nothing shown
      exceeds the progress reached. */
  lemma {:induction false} LiveScheduleNonDecreasing(start: int, n: nat)
    requires n <= |Steps|
    ensures NonDecreasing(LiveSchedule(start, n))
    ensures forall k | 0 <= k < |LiveSchedule(start, n)| :: start <= LiveSchedule(start, n)[k] <= LiveEnd(start, n)
    ensures start <= LiveEnd(start, n)
  {
    if n > 0 {
      LiveScheduleNonDecreasing(start, n - 1);
      var p := LiveEnd(start, n - 1);
      var prefix := LiveSchedule(start, n - 1);
      var r := Ramp(p, Target(n - 1));
      RampShape(p, Target(n - 1));
      var s := LiveSchedule(start, n);
      assert s == prefix + r;
      assert LiveEnd(start, n) == LastOr(r, p);
      forall k | 0 <= k < |s| ensures start <= s[k] <= LiveEnd(start, n) {
        if k >= |prefix| {
          assert s[k] == r[k - |prefix|];
        }
      }
      forall a, b | 0 <= a < b < |s| ensures s[a] <= s[b] {
        if b >= |prefix| && a < |prefix| {
          assert s[b] == r[b - |prefix|];
        } else if a >= |prefix| {
          assert s[a] == r[a - |prefix|] && s[b] == r[b - |prefix|];
        }
      }
    }
  }

  /** How the checklist draws item k: completed styling wins over current. */
  datatype ItemLook = Done | Current | Upcoming

  /** The checklist: `isCompleted` is `progress >= stepProgress`, `isCurrent`
      is a label match, and the completed styling takes precedence. */
  function Checklist(progress: int, currentStep: string): (looks: seq<ItemLook>)
    ensures |looks| == |Steps|
    ensures forall k | 0 <= k < |Steps| :: looks[k] == Done <==> progress >= 20 * (k + 1)
    ensures forall k | 0 <= k < |Steps| :: looks[k] == Current <==> progress < 20 * (k + 1) && currentStep == Steps[k]
    // completed items form a prefix
    ensures forall a, b | 0 <= a <= b < |Steps| :: looks[b] == Done ==> looks[a] == Done
    // at most one item is current
    ensures forall a, b | 0 <= a < b < |Steps| :: !(looks[a] == Current && looks[b] == Current)
  {
    seq(|Steps|, k requires 0 <= k < |Steps| =>
      if progress >= Target(k) then Done
      else if currentStep == Steps[k] then Current
      else Upcoming)
  }

  /** Where the page sends the user: home without a file, to the result
      page once the run is complete. */
  datatype Navigation = Home | ResultPage(file: string)

  /** One state update the page makes visible: `setCurrentStep(step)` or
      `setProgress(value)`. */
  datatype Shown = StepShown(step: string) | ProgressShown(value: int)

  /** The `setProgress` calls that show the values of `r`, in order. */
  function Shows(r: seq<int>): (e: seq<Shown>)
    ensures |e| == |r|
  {
    if r == [] then [] else [ProgressShown(r[0])] + Shows(r[1..])
  }

  lemma {:induction false} ShowsAppend(a: seq<int>, b: seq<int>)
    ensures Shows(a + b) == Shows(a) + Shows(b)
    decreases |a|
  {
    if a == [] {
      assert a + b == b;
    } else {
      assert (a + b)[1..] == a[1..] + b;
      ShowsAppend(a[1..], b);
    }
  }

  /** The values of the `setProgress` calls in a run of updates. */
  function ProgressValues(e: seq<Shown>): (r: seq<int>)
    ensures |r| <= |e|
  {
    if e == [] then []
    else if e[|e| - 1].ProgressShown? then ProgressValues(e[..|e| - 1]) + [e[|e| - 1].value]
    else ProgressValues(e[..|e| - 1])
  }

  lemma {:induction false} ProgressValuesAppend(a: seq<Shown>, b: seq<Shown>)
    ensures ProgressValues(a + b) == ProgressValues(a) + ProgressValues(b)
    decreases |b|
  {
    if b != [] {
      var c := a + b;
      assert c[..|c| - 1] == a + b[..|b| - 1];
      ProgressValuesAppend(a, b[..|b| - 1]);
    } else {
      assert a + b == a;
    }
  }

  lemma {:induction false} ProgressValuesOfShows(r: seq<int>)
    ensures ProgressValues(Shows(r)) == r
    decreases |r|
  {
    if r != [] {
      var front, last := r[..|r| - 1], r[|r| - 1];
      assert r == front + [last];
      ShowsAppend(front, [last]);
      ProgressValuesAppend(Shows(front), Shows([last]));
      ProgressValuesOfShows(front);
      assert ProgressValues(Shows([last])) == [last];
    }
  }

  /** Step i of `processOCR`: its label is set, then its ramp from `first`
      runs under that label. */
  function StepBlock(i: nat, first: int): (e: seq<Shown>)
    requires i < |Steps|
    ensures |e| >= 1 && e[0] == StepShown(Steps[i])
    ensures e[1..] == Shows(Ramp(first, Target(i)))
  {
    [StepShown(Steps[i])] + Shows(Ramp(first, Target(i)))
  }

  /** Setting step i's label and then running its ramp appends the step's
      block to the trace. */
  lemma AppendBlock(before: seq<Shown>, i: nat, first: int, after: seq<Shown>)
    requires i < |Steps|
    requires after == before + [StepShown(Steps[i])] + Shows(Ramp(first, Target(i)))
    ensures after == before + StepBlock(i, first)
  {
  }

  /** The updates of the first `n` steps when every step ramps from the
      same `captured` value. */
  function StepEvents(captured: int, n: nat): (e: seq<Shown>)
    requires n <= |Steps|
  {
    if n == 0 then [] else StepEvents(captured, n - 1) + StepBlock(n - 1, captured)
  }

  /** The updates of the first `n` steps when every step ramps from the
      progress reached so far. */
  function LiveStepEvents(start: int, n: nat): (e: seq<Shown>)
    requires n <= |Steps|
  {
    if n == 0 then [] else LiveStepEvents(start, n - 1) + StepBlock(n - 1, LiveEnd(start, n - 1))
  }

  /** The updates at the end of `processOCR`: 100 %, then the done label. */
  const Finish: seq<Shown> := [ProgressShown(100), StepShown(DoneLabel)]

  lemma ProgressValuesOfStepBlock(i: nat, first: int)
    requires i < |Steps|
    ensures ProgressValues(StepBlock(i, first)) == Ramp(first, Target(i))
  {
    ProgressValuesAppend([StepShown(Steps[i])], Shows(Ramp(first, Target(i))));
    ProgressValuesOfShows(Ramp(first, Target(i)));
    assert ProgressValues([StepShown(Steps[i])]) == [];
  }

  /** The labels of the `setCurrentStep` calls in a run of updates. */
  function StepLabels(e: seq<Shown>): (r: seq<string>)
    ensures |r| <= |e|
  {
    if e == [] then []
    else if e[|e| - 1].StepShown? then StepLabels(e[..|e| - 1]) + [e[|e| - 1].step]
    else StepLabels(e[..|e| - 1])
  }

  lemma {:induction false} StepLabelsAppend(a: seq<Shown>, b: seq<Shown>)
    ensures StepLabels(a + b) == StepLabels(a) + StepLabels(b)
    decreases |b|
  {
    if b != [] {
      var c := a + b;
      assert c[..|c| - 1] == a + b[..|b| - 1];
      StepLabelsAppend(a, b[..|b| - 1]);
    } else {
      assert a + b == a;
    }
  }

  lemma {:induction false} NoLabelsInShows(r: seq<int>)
    ensures StepLabels(Shows(r)) == []
    decreases |r|
  {
    if r != [] {
      var front, last := r[..|r| - 1], r[|r| - 1];
      assert r == front + [last];
      ShowsAppend(front, [last]);
      StepLabelsAppend(Shows(front), Shows([last]));
      NoLabelsInShows(front);
      assert StepLabels(Shows([last])) == [];
    }
  }

  /** Each step's block names exactly that step. */
  lemma StepLabelsOfStepBlock(i: nat, first: int)
    requires i < |Steps|
    ensures StepLabels(StepBlock(i, first)) == [Steps[i]]
  {
    StepLabelsAppend([StepShown(Steps[i])], Shows(Ramp(first, Target(i))));
    NoLabelsInShows(Ramp(first, Target(i)));
    assert StepLabels([StepShown(Steps[i])]) == [Steps[i]];
  }

  lemma PrefixGrows(xs: seq<string>, n: nat)
    requires 0 < n <= |xs|
    ensures xs[..n] == xs[..n - 1] + [xs[n - 1]]
  {
  }

  /** The as-written run names the steps in order, each once, whatever
      progress it ramps from. */
  lemma {:induction false} StepEventsNameEveryStep(captured: int, n: nat)
    requires n <= |Steps|
    ensures StepLabels(StepEvents(captured, n)) == Steps[..n]
  {
    if n > 0 {
      StepEventsNameEveryStep(captured, n - 1);
      StepLabelsAppend(StepEvents(captured, n - 1), StepBlock(n - 1, captured));
      StepLabelsOfStepBlock(n - 1, captured);
      PrefixGrows(Steps, n);
    }
  }

  /** The corrected run names the same steps in the same order. */
  lemma {:induction false} LiveStepEventsNameEveryStep(start: int, n: nat)
    requires n <= |Steps|
    ensures StepLabels(LiveStepEvents(start, n)) == Steps[..n]
  {
    if n > 0 {
      LiveStepEventsNameEveryStep(start, n - 1);
      StepLabelsAppend(LiveStepEvents(start, n - 1), StepBlock(n - 1, LiveEnd(start, n - 1)));
      StepLabelsOfStepBlock(n - 1, LiveEnd(start, n - 1));
      PrefixGrows(Steps, n);
    }
  }

  /** The progress values the as-written run shows are `Schedule`. */
  lemma {:induction false} StepEventsShowSchedule(captured: int, n: nat)
    requires n <= |Steps|
    ensures ProgressValues(StepEvents(captured, n)) == Schedule(captured, n)
  {
    if n > 0 {
      StepEventsShowSchedule(captured, n - 1);
      ProgressValuesAppend(StepEvents(captured, n - 1), StepBlock(n - 1, captured));
      ProgressValuesOfStepBlock(n - 1, captured);
    }
  }

  /** The progress values the corrected run shows are `LiveSchedule`, so by
      `LiveScheduleNonDecreasing` they never go down. */
  lemma {:induction false} LiveStepEventsShowLiveSchedule(start: int, n: nat)
    requires n <= |Steps|
    ensures ProgressValues(LiveStepEvents(start, n)) == LiveSchedule(start, n)
  {
    if n > 0 {
      LiveStepEventsShowLiveSchedule(start, n - 1);
      ProgressValuesAppend(LiveStepEvents(start, n - 1), StepBlock(n - 1, LiveEnd(start, n - 1)));
      ProgressValuesOfStepBlock(n - 1, LiveEnd(start, n - 1));
    }
  }

  /** The page's state, with a trace of every `setCurrentStep` and
      `setProgress` call in the order the page makes them. */
  class ProcessView {
    var progress: int
    var currentStep: string
    var isComplete: bool
    ghost var shown: seq<Shown>

    constructor ()
      ensures progress == 0 && currentStep == Steps[0] && !isComplete
      ensures shown == []
    {
      progress := 0;
      currentStep := Steps[0];
      isComplete := false;
      shown := [];
    }

    /** The inner loop of `processOCR`: `setProgress(j)` for every second
        `j` from `first` up to `limit`. */
    method RampProgress(first: int, limit: int)
      modifies this
      ensures shown == old(shown) + Shows(Ramp(first, limit))
      ensures progress == LastOr(Ramp(first, limit), old(progress))
      ensures currentStep == old(currentStep) && isComplete == old(isComplete)
    {
      var j := first;
      ghost var emitted: seq<int> := [];
      while j <= limit
        invariant emitted + Ramp(j, limit) == Ramp(first, limit)
        invariant shown == old(shown) + Shows(emitted)
        invariant progress == LastOr(emitted, old(progress))
        invariant currentStep == old(currentStep) && isComplete == old(isComplete)
        decreases limit + 2 - j
      {
        progress := j;
        shown := shown + [ProgressShown(j)];
        ShowsAppend(emitted, [j]);
        assert Ramp(j, limit) == [j] + Ramp(j + 2, limit);
        assert emitted + [j] + Ramp(j + 2, limit) == emitted + Ramp(j, limit);
        emitted := emitted + [j];
        j := j + 2;
      }
      assert Ramp(j, limit) == [];
      assert emitted == Ramp(first, limit);
    }

    /** One pass of the outer loop of `processOCR`: `setCurrentStep(steps[i])`,
        then the ramp from `first` to the step's target. */
    method RunStep(i: nat, first: int)
      requires i < |Steps|
      modifies this
      ensures shown == old(shown) + StepBlock(i, first)
      ensures progress == LastOr(Ramp(first, Target(i)), old(progress))
      ensures currentStep == Steps[i] && isComplete == old(isComplete)
    {
      currentStep := Steps[i];
      shown := shown + [StepShown(Steps[i])];
      var stepProgress := Target(i);
      RampProgress(first, stepProgress);
      AppendBlock(old(shown), i, first, shown);
    }

    /** The closing updates of `processOCR`. */
    method Finalize()
      modifies this
      ensures shown == old(shown) + Finish
      ensures progress == 100 && currentStep == DoneLabel && isComplete
    {
      progress := 100;
      shown := shown + [ProgressShown(100)];
      currentStep := DoneLabel;
      shown := shown + [StepShown(DoneLabel)];
      isComplete := true;
    }

    /** `processOCR`, run by an effect whose closure captured `progress` as
        `captured`: every step sets its label and then ramps from
        `Math.floor(captured)` to its target. */
    method ProcessOCR(captured: int)
      modifies this
      ensures shown == old(shown) + StepEvents(captured, |Steps|) + Finish
      ensures progress == 100 && currentStep == DoneLabel && isComplete
    {
      var i := 0;
      while i < |Steps|
        invariant 0 <= i <= |Steps|
        invariant shown == old(shown) + StepEvents(captured, i)
      {
        RunStep(i, captured);
        i := i + 1;
      }
      Finalize();
    }

    /** `processOCR` as evidently intended: each step ramps from the
        progress reached so far. */
    method ProcessOCRLive()
      modifies this
      ensures shown == old(shown) + LiveStepEvents(old(progress), |Steps|) + Finish
      ensures progress == 100 && currentStep == DoneLabel && isComplete
    {
      var i := 0;
      while i < |Steps|
        invariant 0 <= i <= |Steps|
        invariant shown == old(shown) + LiveStepEvents(old(progress), i)
        invariant progress == LiveEnd(old(progress), i)
      {
        RunStep(i, progress);
        i := i + 1;
      }
      Finalize();
    }

    /** The page's effect: without a `file` parameter it goes home and runs
        nothing; otherwise it runs `processOCR` with the progress of the
        render it belongs to, then heads for the result page. */
    method Mount(fileName: Option<string>) returns (nav: Navigation)
      modifies this
      ensures (fileName.None? || fileName.value == "") ==>
                && nav == Home
                && progress == old(progress) && currentStep == old(currentStep) && isComplete == old(isComplete)
                && shown == old(shown)
      ensures fileName.Some? && fileName.value != "" ==>
                && nav == ResultPage(fileName.value)
                && shown == old(shown) + StepEvents(old(progress), |Steps|) + Finish
                && progress == 100 && currentStep == DoneLabel && isComplete
    {
      if fileName.None? || fileName.value == "" {
        return Home;
      }
      ProcessOCR(progress);
      nav := ResultPage(fileName.value);
    }
  }

  /** On a page mounted at progress 0 every step's ramp is 0, 2, ...,
      target: it ends on the step's target. */
  lemma StepRampFromMount(i: nat)
    requires i < |Steps|
    ensures |Ramp(0, Target(i))| == 10 * (i + 1) + 1
    ensures Ramp(0, Target(i))[0] == 0
    ensures Ramp(0, Target(i))[10 * (i + 1)] == Target(i)
  {
    RampShape(0, Target(i));
  }

  /** As written, the second step restarts its ramp at 0: the progress drops
      from 20 back to 0 and the first checklist item loses its completed
      styling. */
  lemma CapturedProgressRegresses()
    ensures Schedule(0, 2)[10] == 20 && Schedule(0, 2)[11] == 0
    ensures Checklist(20, Steps[0])[0] == Done
    ensures Checklist(0, Steps[1])[0] != Done
  {
    StepRampFromMount(0);
    StepRampFromMount(1);
    assert Schedule(0, 2) == Ramp(0, 20) + Ramp(0, 40);
  }
}
