// components/progress-bar.tsx: the bar clamps its input to [0, 100] and
// draws both the bar width and the percentage from the clamped value.

module ProgressBar {
  import opened Types

  function Max(a: real, b: real): (m: real) { if a >= b then a else b }
  function Min(a: real, b: real): (m: real) { if a <= b then a else b }

  /** `Math.min(Math.max(progress, 0), 100)` */
  function Clamp(progress: real): (c: real)
    ensures 0.0 <= c <= 100.0
    ensures 0.0 <= progress <= 100.0 ==> c == progress
    ensures progress < 0.0 ==> c == 0.0
    ensures progress > 100.0 ==> c == 100.0
  {
    Min(Max(progress, 0.0), 100.0)
  }

  lemma ClampIdempotent(progress: real)
    ensures Clamp(Clamp(progress)) == Clamp(progress)
  {
  }

  lemma ClampMonotone(p: real, q: real)
    requires p <= q
    ensures Clamp(p) <= Clamp(q)
  {
  }

  /** `Math.round`: halves round up. */
  function JsRound(x: real): (n: int)
    ensures n as real - 0.5 <= x < n as real + 0.5
  {
    (x + 0.5).Floor
  }

  /** What the bar shows: whether the header row is drawn, the label text, the
      percentage text (when shown) and the bar width in percent. */
  datatype View = View(header: bool, caption: Option<string>, percent: Option<int>, width: real)

  /** `ProgressBar({ progress, showPercentage = true, label })`: an absent
      `showPercentage` shows the percentage; the label is shown only when it
      is a non-empty string. */
  function Render(progress: real, showPercentage: Option<bool>, caption: Option<string>): (v: View)
    ensures v.width == Clamp(progress)
    ensures v.percent.Some? <==> showPercentage != Some(false)
    ensures v.percent.Some? ==> v.percent.value == JsRound(Clamp(progress)) && 0 <= v.percent.value <= 100
    ensures v.caption == if caption.Some? && caption.value != "" then caption else None
    ensures v.header <==> v.percent.Some? || v.caption.Some?
  {
    var c := Clamp(progress);
    var shown := showPercentage != Some(false);
    var shownCaption := if caption.Some? && caption.value != "" then caption else None;
    View(shown || shownCaption.Some?, shownCaption, if shown then Some(JsRound(c)) else None, c)
  }

  /** The raw input never reaches the view: rendering it or its clamp gives
      the same picture. */
  lemma RenderSeesOnlyClamped(progress: real, showPercentage: Option<bool>, caption: Option<string>)
    ensures Render(progress, showPercentage, caption) == Render(Clamp(progress), showPercentage, caption)
  {
    ClampIdempotent(progress);
  }
}
