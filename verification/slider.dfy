/** The trigger-level slider: an integer level in [levelMin, levelMax] maps
    linearly onto a trigger threshold in [thresholdMin, thresholdMax], and a
    threshold maps back to a level with Python's int() truncation. */
module Slider {
  import opened Common

  datatype Scale = Scale(levelMin: int, levelMax: int, thresholdMin: real, thresholdMax: real)

  /** The model's slider: levels 0..100 onto thresholds 0.0..20.0. */
  const Default: Scale := Scale(0, 100, 0.0, 20.0)

  /** `trig_level2th`. Both ranges must be non-empty (Python divides by
      them). On increasing scales, a level inside the level range lands
      inside the threshold range. */
  function LevelToThreshold(s: Scale, level: int): (th: real)
    requires s.levelMax != s.levelMin
    ensures s.levelMin < s.levelMax && s.thresholdMin <= s.thresholdMax
            && s.levelMin <= level <= s.levelMax ==>
              s.thresholdMin <= th <= s.thresholdMax
  {
    var percent := (level - s.levelMin) as real / (s.levelMax - s.levelMin) as real;
    var width := s.thresholdMax - s.thresholdMin;
    var th := width * percent + s.thresholdMin;
    if s.levelMin < s.levelMax && s.thresholdMin <= s.thresholdMax && s.levelMin <= level <= s.levelMax then
      UnitFraction((level - s.levelMin) as real, (s.levelMax - s.levelMin) as real);
      Interpolate(s.thresholdMin, s.thresholdMax, percent);
      th
    else
      th
  }

  /** `trig_th2level`. On increasing scales, a threshold inside the
      threshold range gives a level inside the level range, despite the
      truncation of int(). */
  function ThresholdToLevel(s: Scale, threshold: real): (level: int)
    requires s.thresholdMax != s.thresholdMin
    ensures s.levelMin <= s.levelMax && s.thresholdMin < s.thresholdMax
            && s.thresholdMin <= threshold <= s.thresholdMax ==>
              s.levelMin <= level <= s.levelMax
  {
    var range := s.thresholdMax - s.thresholdMin;
    var percent := (threshold - s.thresholdMin) / range;
    var exact := percent * (s.levelMax - s.levelMin) as real + s.levelMin as real;
    if s.levelMin <= s.levelMax && s.thresholdMin < s.thresholdMax && s.thresholdMin <= threshold <= s.thresholdMax then
      UnitFraction(threshold - s.thresholdMin, range);
      Interpolate(s.levelMin as real, s.levelMax as real, percent);
      TruncToInt(exact)
    else
      TruncToInt(exact)
  }

  /** A fraction whose numerator lies between 0 and its positive
      denominator lies in [0, 1]. */
  lemma UnitFraction(n: real, d: real)
    requires 0.0 <= n <= d && d > 0.0
    ensures 0.0 <= n / d <= 1.0
  {
  }

  /** Moving a fraction in [0, 1] of the way from lo to hi stays in
      [lo, hi]. */
  lemma Interpolate(lo: real, hi: real, p: real)
    requires lo <= hi && 0.0 <= p <= 1.0
    ensures lo <= (hi - lo) * p + lo <= hi
  {
    var w := hi - lo;
    MulNonNegative(w, p);
    MulNonNegative(w, 1.0 - p);
    assert w * (1.0 - p) == w - w * p;
  }

  lemma MulNonNegative(x: real, y: real)
    requires x >= 0.0 && y >= 0.0
    ensures x * y >= 0.0
  {
  }

  /** The end points of the level range map to the end points of the
      threshold range, and the map is increasing when both ranges are. */
  lemma LevelToThresholdLinear(s: Scale, a: int, b: int)
    requires s.levelMax != s.levelMin
    ensures LevelToThreshold(s, s.levelMin) == s.thresholdMin
    ensures LevelToThreshold(s, s.levelMax) == s.thresholdMax
    ensures s.levelMin < s.levelMax && s.thresholdMin < s.thresholdMax && a < b ==>
              LevelToThreshold(s, a) < LevelToThreshold(s, b)
  {
    var range := (s.levelMax - s.levelMin) as real;
    var tr := s.thresholdMax - s.thresholdMin;
    assert (s.levelMin - s.levelMin) as real / range == 0.0;
    assert LevelToThreshold(s, s.levelMin) == tr * 0.0 + s.thresholdMin;
    assert (s.levelMax - s.levelMin) as real / range == 1.0;
    assert LevelToThreshold(s, s.levelMax) == tr * 1.0 + s.thresholdMin;
    if s.levelMin < s.levelMax && s.thresholdMin < s.thresholdMax && a < b {
      LevelToThresholdIncreasing(s, a, b);
    }
  }

  /** On increasing scales a higher level gives a higher threshold. */
  lemma LevelToThresholdIncreasing(s: Scale, a: int, b: int)
    requires s.levelMin < s.levelMax && s.thresholdMin < s.thresholdMax && a < b
    ensures LevelToThreshold(s, a) < LevelToThreshold(s, b)
  {
    var range := (s.levelMax - s.levelMin) as real;
    var width := s.thresholdMax - s.thresholdMin;
    var pa := (a - s.levelMin) as real / range;
    var pb := (b - s.levelMin) as real / range;
    DivideLess((a - s.levelMin) as real, (b - s.levelMin) as real, range);
    MultiplyLess(pa, pb, width);
    assert LevelToThreshold(s, a) == width * pa + s.thresholdMin;
    assert LevelToThreshold(s, b) == width * pb + s.thresholdMin;
  }

  lemma DivideLess(x: real, y: real, d: real)
    requires x < y && d > 0.0
    ensures x / d < y / d
  {
    assert y / d - x / d == (y - x) / d;
  }

  lemma MultiplyLess(x: real, y: real, c: real)
    requires x < y && c > 0.0
    ensures c * x < c * y
  {
  }

  /** Under exact arithmetic, converting a level to a threshold and back
      returns the level. */
  lemma LevelRoundTrip(s: Scale, level: int)
    requires s.levelMax != s.levelMin && s.thresholdMax != s.thresholdMin
    ensures ThresholdToLevel(s, LevelToThreshold(s, level)) == level
  {
    LevelToThresholdValue(s, level);
    ThresholdOfLevel(s, level, LevelToThreshold(s, level));
  }

  /** The threshold that `trig_level2th` computes for a level converts
      back to that level. */
  lemma ThresholdOfLevel(s: Scale, level: int, th: real)
    requires s.levelMax != s.levelMin && s.thresholdMax != s.thresholdMin
    requires th == (s.thresholdMax - s.thresholdMin) * ((level - s.levelMin) as real / (s.levelMax - s.levelMin) as real)
                   + s.thresholdMin
    ensures ThresholdToLevel(s, th) == level
  {
    var lr := (s.levelMax - s.levelMin) as real;
    var tr := s.thresholdMax - s.thresholdMin;
    RealRoundTrip(level, s.levelMin, lr, s.thresholdMin, tr, th);
    ThresholdToLevelValue(s, th);
    TruncOfInteger(level);
  }

  /** The arithmetic of the round trip, on plain numbers: a level moved
      onto the threshold scale and back is the level again. */
  lemma RealRoundTrip(level: int, levelMin: int, lr: real, thresholdMin: real, tr: real, th: real)
    requires lr != 0.0 && tr != 0.0
    requires th == tr * ((level - levelMin) as real / lr) + thresholdMin
    ensures (th - thresholdMin) / tr * lr + levelMin as real == level as real
  {
    var d := (level - levelMin) as real;
    ScaleBack(d, lr, tr, thresholdMin);
  }

  /** `trig_level2th` spelled out. */
  lemma LevelToThresholdValue(s: Scale, level: int)
    requires s.levelMax != s.levelMin
    ensures LevelToThreshold(s, level)
            == (s.thresholdMax - s.thresholdMin) * ((level - s.levelMin) as real / (s.levelMax - s.levelMin) as real)
               + s.thresholdMin
  {
  }

  /** `trig_th2level` spelled out. */
  lemma ThresholdToLevelValue(s: Scale, threshold: real)
    requires s.thresholdMax != s.thresholdMin
    ensures ThresholdToLevel(s, threshold)
            == TruncToInt((threshold - s.thresholdMin) / (s.thresholdMax - s.thresholdMin)
                          * (s.levelMax - s.levelMin) as real + s.levelMin as real)
  {
  }

  /** Scaling by tr / lr, shifting by m, and undoing both gives the value back. */
  lemma ScaleBack(d: real, lr: real, tr: real, m: real)
    requires lr != 0.0 && tr != 0.0
    ensures (tr * (d / lr) + m - m) / tr * lr == d
  {
    assert tr * (d / lr) + m - m == tr * (d / lr);
    assert tr * (d / lr) / tr == d / lr;
  }

  lemma TruncOfInteger(n: int)
    ensures TruncToInt(n as real) == n
  {
  }

  /** The default slider's midpoint 50 is the threshold 10.0. */
  lemma DefaultMidpoint()
    ensures LevelToThreshold(Default, 50) == 10.0
    ensures ThresholdToLevel(Default, 10.0) == 50
  {
    LevelRoundTrip(Default, 50);
  }
}
