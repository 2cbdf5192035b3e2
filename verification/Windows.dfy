// time.windows: the windows of a given size, starting every slide, that contain an instant.

module Windows {
  import opened Int64
  import opened Values

  const MAX_WINDOWS := 10000

  datatype WindowError = NotPositive | SlideTooLong | TooMany(count: int) | TimeOutOfRange

  datatype WindowResult = Starts(starts: seq<int>) | Refused(error: WindowError)

  /** Go's Time.Sub: the difference in nanoseconds, clamped to the range of a duration. */
  function Sub(t: int, u: int): int64 {
    if t - u < -TWO_63 then -TWO_63 else if t - u >= TWO_63 then TWO_63 - 1 else t - u
  }

  /** a mod m in [0, m), from Go's remainder. */
  function FloorMod(a: int64, m: int64): (r: int64)
    requires m > 0
    ensures 0 <= r < m && Multiple(a - r, m)
  {
    var r := Rem(a, m);
    RemMultiple(a, m);
    if r < 0 then
      MultipleSum(a - r, -m, m);
      r + m
    else r
  }

  /** x is a whole number of times m. */
  ghost predicate Multiple(x: int, m: int) { exists k :: x == k * m }

  lemma RemMultiple(a: int, m: int)
    requires m > 0
    ensures -m < Rem(a, m) < m && Multiple(a - Rem(a, m), m)
  {
    assert a - Rem(a, m) == Quo(a, m) * m;
    if a >= 0 {
      assert a == (a / m) * m + a % m;
    } else {
      assert -a == ((-a) / m) * m + (-a) % m;
      assert Quo(a, m) * m == -(((-a) / m) * m);
    }
  }

  lemma MultipleSum(x: int, y: int, m: int)
    requires Multiple(x, m) && (Multiple(y, m) || y == m || y == -m || y == 0)
    ensures Multiple(x + y, m) && Multiple(x - y, m)
  {
    var j :| x == j * m;
    var k := if y == 0 then 0 else if y == m then 1 else if y == -m then -1 else var k :| y == k * m; k;
    assert y == k * m;
    assert x + y == (j + k) * m && x - y == (j - k) * m;
  }

  lemma MultipleBounds(k: int, m: int, x: int)
    requires m > 0 && x == k * m
    ensures x > -m ==> k >= 0
    ensures x >= 0 <==> k >= 0
  {
    if k < 0 { assert k * m <= -m; }
    if k >= 0 { assert k * m >= 0; }
  }

  /** A window may start at s: s is offset plus a whole number of slides after the epoch. */
  ghost predicate Boundary(s: int, slide: int, offset: int) { Multiple(s - offset, slide) }

  /** The boundaries whose window contains t. */
  ghost predicate Covers(s: int, t: int, size: int, slide: int, offset: int) {
    Boundary(s, slide, offset) && s <= t < s + size
  }

  /** How far t is past the latest boundary: two remainders and one adjustment, none of which can
      leave the range of an int64. */
  function PastBoundary(sinceEpoch: int64, slide: int64, offset: int64): (rem: int64)
    requires slide > 0
    ensures 0 <= rem < slide && Boundary(sinceEpoch - rem, slide, offset)
  {
    var p, q := FloorMod(sinceEpoch, slide), FloorMod(offset, slide);
    MultipleSum(sinceEpoch - p, offset - q, slide);
    assert sinceEpoch - (p - q) - offset == (sinceEpoch - p) - (offset - q);
    if p - q < 0 then
      MultipleSum(sinceEpoch - (p - q) - offset, -slide, slide);
      assert sinceEpoch - (p - q + slide) - offset == (sinceEpoch - (p - q) - offset) + -slide;
      p - q + slide
    else p - q
  }

  /** starts lists the boundaries latest, latest - slide, ... */
  ghost predicate Steps(starts: seq<int>, latest: int, slide: int) {
    forall i :: 0 <= i < |starts| ==> starts[i] == latest - i * slide
  }

  /** A boundary no later than t is some number of slides before the latest one. */
  lemma BoundarySteps(s: int, latest: int, t: int, slide: int, offset: int) returns (k: nat)
    requires slide > 0 && Boundary(s, slide, offset) && Boundary(latest, slide, offset)
    requires s <= t && latest <= t < latest + slide
    ensures s == latest - k * slide
  {
    var i :| s - offset == i * slide;
    var j :| latest - offset == j * slide;
    assert latest - s == (j - i) * slide;
    MultipleBounds(j - i, slide, latest - s);
    k := j - i;
  }

  lemma StepBoundary(latest: int, k: int, slide: int, offset: int)
    requires Boundary(latest, slide, offset)
    ensures Boundary(latest - k * slide, slide, offset)
  {
    var j :| latest - offset == j * slide;
    assert latest - k * slide - offset == (j - k) * slide;
  }

  lemma LessFromProduct(a: int, b: int, m: int)
    requires m > 0 && a * m < b * m
    ensures a < b
  {
    if a >= b { MultipleBounds(a - b, m, (a - b) * m); }
  }

  /** The collected starts are all the windows that contain t, and there are between floor and
      ceiling of size / slide of them. */
  lemma StartsExact(starts: seq<int>, latest: int, t: int, size: int, slide: int, offset: int)
    requires 0 < slide <= size && Boundary(latest, slide, offset) && latest <= t < latest + slide
    requires Steps(starts, latest, slide) && |starts| > 0
    requires t - (latest - (|starts| - 1) * slide) < size <= t - (latest - |starts| * slide)
    ensures forall s :: s in starts <==> Covers(s, t, size, slide, offset)
    ensures size / slide <= |starts| <= (size + slide - 1) / slide
  {
    forall s | Covers(s, t, size, slide, offset) ensures s in starts {
      var k := CoveredStep(s, latest, t, size, slide, offset, |starts|);
      assert starts[k] == s;
    }
    forall s | s in starts ensures Covers(s, t, size, slide, offset) {
      var k :| 0 <= k < |starts| && starts[k] == s;
      StepCovered(k, latest, t, size, slide, offset, |starts|);
    }
    CountBounds(|starts|, t - latest, size, slide);
  }

  lemma CoveredStep(s: int, latest: int, t: int, size: int, slide: int, offset: int, n: nat) returns (k: nat)
    requires slide > 0 && Boundary(latest, slide, offset) && latest <= t < latest + slide
    requires Covers(s, t, size, slide, offset) && size <= t - (latest - n * slide)
    ensures k < n && s == latest - k * slide
  {
    k := BoundarySteps(s, latest, t, slide, offset);
    LessFromProduct(k, n, slide);
  }

  lemma StepCovered(k: nat, latest: int, t: int, size: int, slide: int, offset: int, n: nat)
    requires slide > 0 && Boundary(latest, slide, offset) && latest <= t && k < n
    requires t - (latest - (n - 1) * slide) < size
    ensures Covers(latest - k * slide, t, size, slide, offset)
  {
    StepBoundary(latest, k, slide, offset);
    assert (n - 1) * slide - k * slide == (n - 1 - k) * slide;
    MultipleBounds(n - 1 - k, slide, (n - 1 - k) * slide);
    MultipleBounds(k, slide, k * slide);
  }

  lemma CountBounds(n: nat, rem: int, size: int, slide: int)
    requires 0 < slide <= size && 0 <= rem < slide && n > 0
    requires rem + (n - 1) * slide < size <= rem + n * slide
    ensures size / slide <= n <= (size + slide - 1) / slide
  {
    var f, c := size / slide, (size + slide - 1) / slide;
    assert f * slide <= size < f * slide + slide;
    assert c * slide <= size + slide - 1 < c * slide + slide;
    assert (n + 1) * slide == n * slide + slide;
    LessFromProduct(f, n + 1, slide);
    LessFromProduct(n - 1, c, slide);
  }

  /** The refusals, in the order in which they are checked. */
  function Refusal(t: int, size: int64, slide: int64): Option<WindowError> {
    if size <= 0 || slide <= 0 then Some(NotPositive)
    else if slide > size then Some(SlideTooLong)
    else if Quo(Wrap(size + slide - 1), slide) > MAX_WINDOWS then Some(TooMany(Quo(Wrap(size + slide - 1), slide)))
    else if Sub(t, 0) == TWO_63 - 1 || Sub(t, 0) == -TWO_63 then Some(TimeOutOfRange)
    else None
  }

  /** Each refusal, told on what was asked for: more than 10000 slides to a size, where their sum can be
      computed at all, and an instant that no duration since the epoch can express. */
  lemma RefusalExact(t: int, size: int64, slide: int64)
    ensures Refusal(t, size, slide) == Some(NotPositive) <==> size <= 0 || slide <= 0
    ensures Refusal(t, size, slide) == Some(SlideTooLong) <==> 0 < size < slide
    ensures (exists n :: Refusal(t, size, slide) == Some(TooMany(n))) <==>
      0 < slide <= size && size + slide - 1 < 0x8000_0000_0000_0000 && size > 10000 * slide
    ensures Refusal(t, size, slide) == Some(TimeOutOfRange) <==>
      && 0 < slide <= size && !(size + slide - 1 < 0x8000_0000_0000_0000 && size > 10000 * slide)
      && (t >= 0x7fff_ffff_ffff_ffff || t <= -0x8000_0000_0000_0000)
  {
    if 0 < slide <= size {
      var n := Quo(Wrap(size + slide - 1), slide);
      assert Refusal(t, size, slide).Some? && Refusal(t, size, slide).value.TooMany? ==>
          Refusal(t, size, slide) == Some(TooMany(n));
      if size + slide - 1 < TWO_63 {
        CeilingOver(size, slide, 10000);
      } else {
        LimitMissesHugeSize(t, size, slide);
      }
    }
  }

  lemma CeilingOver(size: int, slide: int, most: nat)
    requires 0 < slide <= size
    ensures (size + slide - 1) / slide > most <==> size > most * slide
  {
    var c := (size + slide - 1) / slide;
    assert c * slide <= size + slide - 1 < c * slide + slide;
    if c > most {
      MultipleBounds(c - most - 1, slide, (c - most - 1) * slide);
      assert c * slide == most * slide + slide + (c - most - 1) * slide;
    } else {
      MultipleBounds(most - c, slide, (most - c) * slide);
      assert most * slide == c * slide + (most - c) * slide;
    }
  }

  /** starts lists, oldest first, exactly the windows that contain t. */
  ghost predicate AllWindows(starts: seq<int>, t: int, size: int64, slide: int64, offset: int64) {
    && (forall s :: s in starts <==> Covers(s, t, size, slide, offset))
    && (forall i, j :: 0 <= i < j < |starts| ==> starts[i] < starts[j])
  }

  lemma CoversExactly(s: int, t: int, size: int, slide: int, offset: int)
    ensures Covers(s, t, size, slide, offset) <==>
      s <= t < s + size && exists k {:trigger k * slide} :: s == offset + k * slide
  {
    if Boundary(s, slide, offset) {
      var k :| s - offset == k * slide;
      assert s == offset + k * slide;
    }
    if exists k {:trigger k * slide} :: s == offset + k * slide {
      var k :| s == offset + k * slide;
      assert s - offset == k * slide;
    }
  }

  /** time.windows; slide defaults to size and offset to nothing. */
  method TimeWindows(t: int, size: int64, optSlide: Option<int64>, optOffset: Option<int64>) returns (r: WindowResult)
    ensures
      var slide := if optSlide.Some? then optSlide.value else size;
      var offset := if optOffset.Some? then optOffset.value else 0;
      match r
      case Refused(e) => Refusal(t, size, slide) == Some(e)
      case Starts(starts) =>
        && Refusal(t, size, slide) == None && AllWindows(starts, t, size, slide, offset)
        && (forall s :: s in starts <==> s <= t < s + size && exists k {:trigger k * slide} :: s == offset + k * slide)
        && size / slide <= |starts| <= (size + slide - 1) / slide
        && (|starts| > 10000 <==>
              size + slide - 1 >= TWO_63 && PastBoundary(Sub(t, 0), slide, offset) + 10000 * slide < size)
  {
    var slide := if optSlide.Some? then optSlide.value else size;
    var offset: int64 := if optOffset.Some? then optOffset.value else 0;
    if size <= 0 || slide <= 0 { return Refused(NotPositive); }
    if slide > size { return Refused(SlideTooLong); }
    var count := Quo(Wrap(size + slide - 1), slide);
    if count > MAX_WINDOWS { return Refused(TooMany(count)); }
    var sinceEpoch := Sub(t, 0);
    if sinceEpoch == TWO_63 - 1 || sinceEpoch == -TWO_63 { return Refused(TimeOutOfRange); }
    var starts := WindowStarts(t, size, slide, offset);
    LimitExact(starts, sinceEpoch, size, slide, offset);
    forall s ensures Covers(s, t, size, slide, offset) <==>
      s <= t < s + size && exists k {:trigger k * slide} :: s == offset + k * slide
    {
      CoversExactly(s, t, size, slide, offset);
    }
    return Starts(starts);
  }

  method WindowStarts(t: int64, size: int64, slide: int64, offset: int64) returns (out: seq<int>)
    requires 0 < slide <= size
    ensures AllWindows(out, t, size, slide, offset) && size / slide <= |out| <= (size + slide - 1) / slide
    ensures
      var rem := PastBoundary(t, slide, offset);
      |out| > 0 && rem + (|out| - 1) * slide < size <= rem + |out| * slide
  {
    var latest := t - PastBoundary(t, slide, offset);
    var starts := CollectStarts(t, size, slide, latest);
    StartsExact(starts, latest, t, size, slide, offset);
    out := Reverse(starts);
    forall i, j | 0 <= i < j < |out| ensures out[i] < out[j] {
      Earlier(latest, |out| - 1 - j, |out| - 1 - i, slide);
    }
  }

  /** More windows than the limit come back exactly when the addition that feeds its test overflows
      and the window one past the limit still contains the instant. */
  lemma LimitExact(starts: seq<int>, t: int64, size: int64, slide: int64, offset: int64)
    requires 0 < slide <= size && Quo(Wrap(size + slide - 1), slide) <= MAX_WINDOWS
    requires |starts| <= (size + slide - 1) / slide && |starts| > 0
    requires
      var rem := PastBoundary(t, slide, offset);
      rem + (|starts| - 1) * slide < size <= rem + |starts| * slide
    ensures |starts| > 10000 <==>
      size + slide - 1 >= TWO_63 && PastBoundary(t, slide, offset) + 10000 * slide < size
  {
    ManyWindows(|starts|, PastBoundary(t, slide, offset), size, slide, MAX_WINDOWS);
  }

  lemma Earlier(latest: int, p: int, q: int, slide: int)
    requires p < q && slide > 0
    ensures latest - q * slide < latest - p * slide
  {
    assert q * slide - p * slide == (q - p) * slide;
    MultipleBounds(q - p - 1, slide, (q - p - 1) * slide);
  }

  /** From the latest boundary back, for as long as the window still reaches t. */
  method CollectStarts(t: int, size: int64, slide: int64, latest: int) returns (starts: seq<int>)
    requires 0 < slide <= size && latest <= t < latest + slide
    ensures Steps(starts, latest, slide) && |starts| > 0
    ensures t - (latest - (|starts| - 1) * slide) < size <= t - (latest - |starts| * slide)
  {
    starts := [];
    var start := latest;
    while Sub(t, start) < size
      invariant Steps(starts, latest, slide) && start == latest - |starts| * slide
      invariant |starts| > 0 ==> t - (latest - (|starts| - 1) * slide) < size
      decreases size - (t - start)
    {
      starts := starts + [start];
      start := start - slide;
      assert |starts| * slide == (|starts| - 1) * slide + slide;
    }
  }

  method Reverse(starts: seq<int>) returns (out: seq<int>)
    ensures |out| == |starts| && forall i :: 0 <= i < |out| ==> out[i] == starts[|starts| - 1 - i]
    ensures forall s :: s in out <==> s in starts
  {
    out := [];
    for i := 0 to |starts|
      invariant |out| == i && forall j :: 0 <= j < i ==> out[j] == starts[|starts| - 1 - j]
    {
      out := out + [starts[|starts| - 1 - i]];
    }
    forall s | s in starts ensures s in out {
      var k :| 0 <= k < |starts| && starts[k] == s;
      assert out[|starts| - 1 - k] == s;
    }
  }

  /** Two offsets that differ by whole slides allow the same windows. */
  lemma OffsetModSlide(s: int, slide: int, offset: int, k: int)
    ensures Boundary(s, slide, offset) <==> Boundary(s, slide, offset + k * slide)
  {
    if Boundary(s, slide, offset) {
      var j :| s - offset == j * slide;
      assert s - (offset + k * slide) == (j - k) * slide;
    }
    if Boundary(s, slide, offset + k * slide) {
      var j :| s - (offset + k * slide) == j * slide;
      assert s - offset == (j + k) * slide;
    }
  }

  // ----- What the limit does not stop -----

  /** Once size + slide - 1 leaves the int64 range the count it is compared with is negative, so the
      limit is never applied, whatever the size. */
  lemma LimitMissesHugeSize(t: int, size: int64, slide: int64)
    requires 0 < slide <= size && size + slide - 1 >= TWO_63
    ensures Quo(Wrap(size + slide - 1), slide) <= 0
    ensures Refusal(t, size, slide) == if Sub(t, 0) == TWO_63 - 1 ||
        Sub(t, 0) == -TWO_63 then Some(TimeOutOfRange) else None
  {
    WrapOver(size + slide - 1);
    QuoNegative(size + slide - 1 - TWO_64, slide);
  }

  lemma QuoNegative(x: int, m: int)
    requires x < 0 < m
    ensures Quo(x, m) <= 0
  {
    assert -x == ((-x) / m) * m + (-x) % m;
    LessFromProduct(-1, (-x) / m, m);
  }

  lemma WrapOver(x: int)
    requires TWO_63 <= x < TWO_64 + TWO_63
    ensures Wrap(x) == x - TWO_64
  {
    assert Wrap(x) == Wrap(x - TWO_64);
  }

  /** How many windows contain t, from how far t is past the latest boundary. */
  lemma ManyWindows(n: nat, rem: int, size: int, slide: int, most: nat)
    requires 0 < slide && 0 <= rem && n > 0
    requires rem + (n - 1) * slide < size <= rem + n * slide
    ensures n > most <==> rem + most * slide < size
  {
    if n > most {
      MultipleBounds(n - 1 - most, slide, (n - 1 - most) * slide);
      assert (n - 1) * slide == most * slide + (n - 1 - most) * slide;
    } else {
      MultipleBounds(most - n, slide, (most - n) * slide);
      assert most * slide == n * slide + (most - n) * slide;
    }
  }

  /** Windows of the longest size, sliding by 2: at the epoch many more than the limit come back. */
  lemma LimitMissedExample()
    ensures
      var size: int64 := TWO_63 - 1;
      Refusal(0, size, 2).None? && PastBoundary(0, 2, 0) + 10000 * 2 < size
  {
    LimitMissesHugeSize(0, TWO_63 - 1, 2);
  }
}
