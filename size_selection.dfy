/**
 * Best-fit preview size selection: `CamService.chooseSupportedSize`.
 *
 * The supported output sizes of the camera are sorted with a stable sort by
 * two keys (aspect distance, then area distance) and the first one is taken;
 * an empty list yields the fixed fallback 320x200.
 *
 * The target aspect is `width / height` as given, while a candidate's aspect
 * is normalised to short side / long side. The model keeps that asymmetry.
 * Aspects are exact rationals (`real`), not 32-bit floats.
 */
module SizeSelection {
  import opened StableSort

  /** `android.util.Size`. */
  datatype Size = Size(width: int, height: int)

  /** Returned when the camera reports no supported size at all. */
  const Fallback: Size := Size(320, 200)

  /** Largest Kotlin `Int`. */
  const MaxInt: int := 0x7fff_ffff

  /**
   * The sizes the model admits: both sides positive, and an area that a
   * Kotlin `Int` holds, so that the products of the source do not wrap
   * around. A zero side is excluded on purpose: a zero target height would
   * make the source divide by zero.
   */
  predicate ValidSize(s: Size) {
    0 < s.width && 0 < s.height && s.width * s.height <= MaxInt
  }

  predicate AllValid(sizes: seq<Size>) {
    forall c :: c in sizes ==> ValidSize(c)
  }

  function RealAbs(x: real): real { if x < 0.0 then -x else x }

  function IntAbs(x: int): int { if x < 0 then -x else x }

  /** A candidate's aspect, short side over long side, whatever its orientation. */
  function CandidateAspect(c: Size): (a: real)
    requires ValidSize(c)
    ensures 0.0 < a <= 1.0
  {
    if c.width < c.height then c.width as real / c.height as real
    else c.height as real / c.width as real
  }

  /** The target's aspect, `width / height`, NOT normalised. */
  function TargetAspect(t: Size): (a: real)
    requires ValidSize(t)
    ensures 0.0 < a && a * t.height as real == t.width as real
    ensures t.height <= t.width <==> 1.0 <= a
  {
    t.width as real / t.height as real
  }

  /** The first selector: distance of the candidate's aspect to the target's. */
  function AspectDistance(c: Size, t: Size): (d: real)
    requires ValidSize(c) && ValidSize(t)
    ensures 0.0 <= d
    ensures d == 0.0 <==> CandidateAspect(c) == TargetAspect(t)
  {
    RealAbs(CandidateAspect(c) - TargetAspect(t))
  }

  /** The second selector: distance of the candidate's area to the target's. */
  function AreaDistance(c: Size, t: Size): (d: int)
    requires ValidSize(c) && ValidSize(t)
    ensures 0 <= d
    ensures d == 0 <==> c.width * c.height == t.width * t.height
  {
    IntAbs(t.width * t.height - c.width * c.height)
  }

  /** The sort key of one candidate: aspect distance first, then area distance. */
  function KeyOf(c: Size, t: Size): (k: Key)
    requires ValidSize(c) && ValidSize(t)
    ensures KeyLe(Key(0.0, 0), k)
    ensures k == Key(0.0, 0) <==>
              CandidateAspect(c) == TargetAspect(t) && c.width * c.height == t.width * t.height
  {
    Key(AspectDistance(c, t), AreaDistance(c, t))
  }

  /**
   * The `compareBy(...)` selector pair for the target `t`: `KeyOf` as the
   * key function handed to `SortedWith`.
   */
  function SizeKey(t: Size): Size --> Key
    requires ValidSize(t)
  {
    (c: Size) requires ValidSize(c) => KeyOf(c, t)
  }

  lemma SizeKeyDefinedOnValid(s: seq<Size>, t: Size)
    requires ValidSize(t) && AllValid(s)
    ensures Keyed(s, SizeKey(t))
  {
    forall i | 0 <= i < |s| ensures SizeKey(t).requires(s[i]) {
      assert s[i] in s;
    }
  }

  /** `x` comes no later than `y` in the sorted order (compares <= 0). */
  predicate NoFurther(x: Size, y: Size, t: Size)
    requires ValidSize(x) && ValidSize(y) && ValidSize(t)
  {
    KeyLe(KeyOf(x, t), KeyOf(y, t))
  }

  /** `x` compares strictly before `y`. */
  predicate Nearer(x: Size, y: Size, t: Size)
    requires ValidSize(x) && ValidSize(y) && ValidSize(t)
  {
    KeyLt(KeyOf(x, t), KeyOf(y, t))
  }

  /** `supportedSizes.sortedWith(compareBy(aspect distance, area distance))`. */
  function SortNearestToFurthest(sizes: seq<Size>, t: Size): (r: seq<Size>)
    requires AllValid(sizes) && ValidSize(t)
    ensures AllValid(r) && multiset(r) == multiset(sizes)
  {
    SizeKeyDefinedOnValid(sizes, t);
    var r := SortedWith(sizes, SizeKey(t));
    forall c | c in r ensures ValidSize(c) {
      assert c in multiset(r);
    }
    r
  }

  /** `chooseSupportedSize`: the first of the sorted sizes, or the fallback. */
  function ChooseSupportedSize(sizes: seq<Size>, t: Size): (r: Size)
    requires AllValid(sizes) && ValidSize(t)
    ensures sizes == [] ==> r == Fallback
    ensures sizes != [] ==> r in sizes
  {
    var sorted := SortNearestToFurthest(sizes, t);
    if |sorted| > 0 then
      assert sorted[0] in multiset(sorted);
      sorted[0]
    else Fallback
  }

  /** The sorted sizes run from nearest to furthest. */
  lemma SortIsNearestToFurthest(sizes: seq<Size>, t: Size)
    requires AllValid(sizes) && ValidSize(t)
    ensures forall i, j :: 0 <= i < j < |SortNearestToFurthest(sizes, t)| ==>
      NoFurther(SortNearestToFurthest(sizes, t)[i], SortNearestToFurthest(sizes, t)[j], t)
  {
    SortedWithIsOrdered(sizes, SizeKey(t));
  }

  /**
   * Everything the source promises about the chosen size: it is a supported
   * size, no supported size has a smaller aspect distance, none with the
   * same aspect distance has a smaller area distance, and among complete
   * ties the earliest in enumeration order wins.
   */
  lemma ChooseIsEarliestNearest(sizes: seq<Size>, t: Size) returns (i: nat)
    requires AllValid(sizes) && ValidSize(t) && sizes != []
    ensures i < |sizes| && ChooseSupportedSize(sizes, t) == sizes[i]
    ensures forall j :: 0 <= j < i ==> Nearer(sizes[i], sizes[j], t)
    ensures forall j :: i <= j < |sizes| ==> NoFurther(sizes[i], sizes[j], t)
  {
    i := SortedWithHeadIsEarliestLeast(sizes, SizeKey(t));
  }

  /** Primary key: no supported size is strictly closer in aspect. */
  lemma ChooseMinimisesAspectDistance(sizes: seq<Size>, t: Size, c: Size)
    requires AllValid(sizes) && ValidSize(t) && c in sizes
    ensures ValidSize(ChooseSupportedSize(sizes, t))
    ensures AspectDistance(ChooseSupportedSize(sizes, t), t) <= AspectDistance(c, t)
  {
    var i := ChooseIsEarliestNearest(sizes, t);
    var j :| 0 <= j < |sizes| && sizes[j] == c;
    if j < i {
      assert Nearer(sizes[i], sizes[j], t);
    } else {
      assert NoFurther(sizes[i], sizes[j], t);
    }
  }

  /** Secondary key: among sizes as close in aspect, none is closer in area. */
  lemma ChooseMinimisesAreaAmongAspectTies(sizes: seq<Size>, t: Size, c: Size)
    requires AllValid(sizes) && ValidSize(t) && c in sizes
    ensures ValidSize(ChooseSupportedSize(sizes, t))
    ensures AspectDistance(c, t) == AspectDistance(ChooseSupportedSize(sizes, t), t) ==>
      AreaDistance(ChooseSupportedSize(sizes, t), t) <= AreaDistance(c, t)
  {
    var i := ChooseIsEarliestNearest(sizes, t);
    var j :| 0 <= j < |sizes| && sizes[j] == c;
    if j < i {
      assert Nearer(sizes[i], sizes[j], t);
    } else {
      assert NoFurther(sizes[i], sizes[j], t);
    }
  }

  /**
   * Stability: a supported size that ties the chosen one on both keys does
   * not come before the chosen size's first occurrence.
   */
  lemma ChooseKeepsEnumerationOrderOnTies(sizes: seq<Size>, t: Size, j: nat)
    requires AllValid(sizes) && ValidSize(t) && j < |sizes|
    ensures ValidSize(ChooseSupportedSize(sizes, t))
    ensures KeyOf(sizes[j], t) == KeyOf(ChooseSupportedSize(sizes, t), t) ==>
      ChooseSupportedSize(sizes, t) in sizes[..j + 1]
  {
    var i := ChooseIsEarliestNearest(sizes, t);
    if KeyOf(sizes[j], t) == KeyOf(sizes[i], t) {
      assert !Nearer(sizes[i], sizes[j], t);
      assert i <= j;
      assert sizes[..j + 1][i] == sizes[i];
    }
  }

  /*
   * Consequences of the un-normalised target aspect.
   */

  /**
   * For a landscape or square target the target aspect is at least 1 and
   * every candidate aspect at most 1, so the primary key simply prefers the
   * squarest candidate: the chosen size has the largest short/long ratio.
   */
  lemma LandscapeTargetChoosesSquarest(sizes: seq<Size>, t: Size, c: Size)
    requires AllValid(sizes) && ValidSize(t) && c in sizes
    requires t.height <= t.width
    ensures ValidSize(ChooseSupportedSize(sizes, t))
    ensures CandidateAspect(c) <= CandidateAspect(ChooseSupportedSize(sizes, t))
  {
    ChooseMinimisesAspectDistance(sizes, t, c);
    var r := ChooseSupportedSize(sizes, t);
    AtLeastOne(t.width as real, t.height as real);
  }

  lemma AtLeastOne(x: real, y: real)
    requires 0.0 < y <= x
    ensures 1.0 <= x / y
  {
    var q := x / y;
    assert q * y == x;
    assert (q - 1.0) * y == x - y;
  }

  /** Positive sides with equal ratio and equal product are equal. */
  lemma SameRatioAndAreaSameSides(x: int, y: int, w: int, h: int)
    requires 0 < x && 0 < y && 0 < w && 0 < h
    requires x * h == w * y && x * y == w * h
    ensures x == w && y == h
  {
    assert x * x * h == w * w * h by {
      calc {
        x * x * h;
        == x * (x * h);
        == x * (w * y);
        == w * (x * y);
        == w * (w * h);
      }
    }
    assert x * x == w * w;
    assert (x - w) * (x + w) == x * x - w * w;
    assert x * h == x * y;
  }

  lemma {:induction false} RatioToProduct(a: int, b: int, c: int, d: int)
    requires 0 < b && 0 < d
    requires a as real / b as real == c as real / d as real
    ensures a * d == c * b
  {
    var x := a as real / b as real;
    assert a as real == x * b as real;
    assert c as real == x * d as real;
    assert (a * d) as real == a as real * d as real == x * b as real * d as real;
    assert (c * b) as real == c as real * b as real == x * d as real * b as real;
  }

  /**
   * For a portrait or square target the target aspect is normalised by
   * accident, so when the target is supported the result has the target's
   * sides, in one of the two orientations: a transpose listed before the
   * target ties with it on both keys and wins.
   */
  lemma PortraitTargetSidesWin(sizes: seq<Size>, t: Size)
    requires AllValid(sizes) && ValidSize(t) && t in sizes
    requires t.width <= t.height
    ensures ChooseSupportedSize(sizes, t) in {t, Size(t.height, t.width)}
  {
    var r := ChooseSupportedSize(sizes, t);
    ChooseMinimisesAspectDistance(sizes, t, t);
    assert AspectDistance(t, t) == 0.0;
    ChooseMinimisesAreaAmongAspectTies(sizes, t, t);
    assert CandidateAspect(r) == TargetAspect(t);
    assert r.width * r.height == t.width * t.height;
    if r.width < r.height {
      RatioToProduct(r.width, r.height, t.width, t.height);
      SameRatioAndAreaSameSides(r.width, r.height, t.width, t.height);
    } else {
      RatioToProduct(r.height, r.width, t.width, t.height);
      SameRatioAndAreaSameSides(r.height, r.width, t.width, t.height);
    }
  }

  /** A supported size strictly nearer than every other position is the one chosen. */
  lemma ChooseStrictlyNearest(sizes: seq<Size>, t: Size, k: nat)
    requires AllValid(sizes) && ValidSize(t) && k < |sizes|
    requires forall j :: 0 <= j < |sizes| && j != k ==> Nearer(sizes[k], sizes[j], t)
    ensures ChooseSupportedSize(sizes, t) == sizes[k]
  {
    var i := ChooseIsEarliestNearest(sizes, t);
    if i != k {
      assert false;
    }
  }

  /**
   * The landscape 1280x720 target among 1920x1080, 1280x720 and 640x480:
   * the target aspect is 16/9 while every candidate aspect is at most 1, so
   * 640x480 (aspect 3/4, the squarest) is chosen, not the exact match.
   */
  lemma LandscapeExampleChoosesSquarest()
    ensures ChooseSupportedSize([Size(1920, 1080), Size(1280, 720), Size(640, 480)], Size(1280, 720))
            == Size(640, 480)
  {
    var sizes := [Size(1920, 1080), Size(1280, 720), Size(640, 480)];
    var t := Size(1280, 720);
    assert AspectDistance(sizes[0], t) == 175.0 / 144.0;
    assert AspectDistance(sizes[1], t) == 175.0 / 144.0;
    assert AspectDistance(sizes[2], t) == 37.0 / 36.0;
    ChooseStrictlyNearest(sizes, t, 2);
  }

  /**
   * The same candidates with the portrait target 720x1280: 1280x720, the
   * target's sides turned landscape, is chosen.
   */
  lemma PortraitExampleChoosesTargetSides()
    ensures ChooseSupportedSize([Size(1920, 1080), Size(1280, 720), Size(640, 480)], Size(720, 1280))
            == Size(1280, 720)
  {
    var sizes := [Size(1920, 1080), Size(1280, 720), Size(640, 480)];
    var t := Size(720, 1280);
    assert KeyOf(sizes[0], t) == Key(0.0, 1152000);
    assert KeyOf(sizes[1], t) == Key(0.0, 0);
    assert AspectDistance(sizes[2], t) == 0.1875;
    ChooseStrictlyNearest(sizes, t, 1);
  }

  /**
   * An exact match does not beat the transpose listed before it: both have
   * key (0, 0), and the stable sort keeps the enumeration order.
   */
  lemma TransposeListedFirstBeatsExactMatch()
    ensures ChooseSupportedSize([Size(1280, 720), Size(720, 1280)], Size(720, 1280))
            == Size(1280, 720)
  {
    var sizes := [Size(1280, 720), Size(720, 1280)];
    var t := Size(720, 1280);
    assert KeyOf(sizes[0], t) == Key(0.0, 0);
    assert KeyOf(sizes[1], t) == Key(0.0, 0);
    var i := ChooseIsEarliestNearest(sizes, t);
    if i != 0 {
      assert false;
    }
  }
}
