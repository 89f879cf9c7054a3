/**
 * Output sizes, the area comparator `CompareSizesByArea`, and the
 * `Collections.min` / `Collections.max` selections made with it.
 */
module Sizes {
  import opened JavaLang

  /** An `android.util.Size`: a width and a height in pixels. */
  datatype Size = Size(width: Int32, height: Int32)

  /** The exact area of a size. */
  function Area(s: Size): int
  {
    s.width * s.height
  }

  /** Multiplying by a non-negative factor keeps the order. */
  lemma MulMonotone(a: int, b: int, c: int)
    requires 0 <= a <= b && 0 <= c
    ensures a * c <= b * c
  {
    assert b * c - a * c == (b - a) * c;
  }

  /** The product of two `int`s lies within [-(2^62 - 2^31), 2^62]. */
  lemma ProductOfInts(x: int, y: int)
    requires -0x8000_0000 <= x < 0x8000_0000 && -0x8000_0000 <= y < 0x8000_0000
    ensures -(0x4000_0000_0000_0000 - 0x8000_0000) <= x * y <= 0x4000_0000_0000_0000
  {
    var M := 0x8000_0000;
    var a: int, b: int := Abs(x), Abs(y);
    if (x < 0) == (y < 0) {
      // x * y == a * b <= M * b <= M * M
      assert x * y == a * b;
      MulMonotone(a, M, b);
      MulMonotone(b, M, M);
    } else if x < 0 {
      // x * y == -(a * b) and a * b <= M * b <= M * (M - 1)
      assert x * y == -(a * b);
      MulMonotone(a, M, b);
      MulMonotone(b, M - 1, M);
    } else {
      // x * y == -(a * b) and a * b <= (M - 1) * b <= (M - 1) * M
      assert x * y == -(a * b);
      MulMonotone(a, M - 1, b);
      MulMonotone(b, M, M - 1);
    }
  }

  /**
   * `CompareSizesByArea.compare`: the sign of `(long) w1 * h1 - (long) w2 * h2`,
   * computed in 64-bit arithmetic. Because both products and their difference
   * fit in a `long`, the comparator orders sizes exactly by area.
   */
  function CompareSizesByArea(o1: Size, o2: Size): (r: int)
    ensures r == -1 || r == 0 || r == 1
    ensures r < 0 <==> Area(o1) < Area(o2)
    ensures r == 0 <==> Area(o1) == Area(o2)
    ensures r > 0 <==> Area(o1) > Area(o2)
  {
    ProductOfInts(o1.width, o1.height);
    ProductOfInts(o2.width, o2.height);
    Signum(SubLong(MulLong(o1.width, o1.height), MulLong(o2.width, o2.height)))
  }

  lemma {:induction false} CompareAntisymmetric(a: Size, b: Size)
    ensures CompareSizesByArea(a, b) == -CompareSizesByArea(b, a)
  {
    var ab, ba := CompareSizesByArea(a, b), CompareSizesByArea(b, a);
    if Area(a) < Area(b) {
      assert ab == -1 && ba == 1;
    } else if Area(a) == Area(b) {
      assert ab == 0 && ba == 0;
    } else {
      assert ab == 1 && ba == -1;
    }
  }

  lemma CompareTransitive(a: Size, b: Size, c: Size)
    requires CompareSizesByArea(a, b) <= 0 && CompareSizesByArea(b, c) <= 0
    ensures CompareSizesByArea(a, c) <= 0
  {
  }

  /**
   * `Collections.min(list, new CompareSizesByArea())`: the candidate starts at
   * the first element and is replaced by a later element only when that one
   * compares strictly smaller. Defined on the prefix, so that `MinByArea(s)`
   * is the candidate after the iteration has seen all of `s`.
   */
  function MinByArea(s: seq<Size>): (m: Size)
    requires |s| > 0
    ensures m in s
    ensures forall x :: x in s ==> Area(m) <= Area(x)
  {
    if |s| == 1 then s[0]
    else
      var c := MinByArea(s[..|s| - 1]);
      assert forall x :: x in s ==> x in s[..|s| - 1] || x == s[|s| - 1];
      if CompareSizesByArea(s[|s| - 1], c) < 0 then s[|s| - 1] else c
  }

  /** `Collections.max(list, new CompareSizesByArea())`, the mirror image of `MinByArea`. */
  function MaxByArea(s: seq<Size>): (m: Size)
    requires |s| > 0
    ensures m in s
    ensures forall x :: x in s ==> Area(x) <= Area(m)
  {
    if |s| == 1 then s[0]
    else
      var c := MaxByArea(s[..|s| - 1]);
      assert forall x :: x in s ==> x in s[..|s| - 1] || x == s[|s| - 1];
      if CompareSizesByArea(s[|s| - 1], c) > 0 then s[|s| - 1] else c
  }

  /** `m` sits at index `i` of `s`, and every element before it has a strictly larger area. */
  ghost predicate FirstMinimalAt(s: seq<Size>, m: Size, i: int)
  {
    0 <= i < |s| && s[i] == m &&
    (forall x :: x in s ==> Area(m) <= Area(x)) &&
    (forall j :: 0 <= j < i ==> Area(m) < Area(s[j]))
  }

  /** `m` sits at index `i` of `s`, and every element before it has a strictly smaller area. */
  ghost predicate FirstMaximalAt(s: seq<Size>, m: Size, i: int)
  {
    0 <= i < |s| && s[i] == m &&
    (forall x :: x in s ==> Area(x) <= Area(m)) &&
    (forall j :: 0 <= j < i ==> Area(s[j]) < Area(m))
  }

  /** A first minimal element stays first minimal in any prefix that holds it. */
  lemma FirstMinimalAtInPrefix(s: seq<Size>, n: int, m: Size, i: int)
    requires i < n <= |s| && FirstMinimalAt(s, m, i)
    ensures FirstMinimalAt(s[..n], m, i)
  {
    forall x | x in s[..n] ensures Area(m) <= Area(x) {
      assert x in s;
    }
  }

  /** A first maximal element stays first maximal in any prefix that holds it. */
  lemma FirstMaximalAtInPrefix(s: seq<Size>, n: int, m: Size, i: int)
    requires i < n <= |s| && FirstMaximalAt(s, m, i)
    ensures FirstMaximalAt(s[..n], m, i)
  {
    forall x | x in s[..n] ensures Area(x) <= Area(m) {
      assert x in s;
    }
  }

  /** Of several elements with the least area, `Collections.min` returns the first. */
  lemma {:induction false} MinByAreaIsFirst(s: seq<Size>) returns (i: nat)
    requires |s| > 0
    ensures FirstMinimalAt(s, MinByArea(s), i)
  {
    if |s| == 1 {
      i := 0;
    } else {
      var p := s[..|s| - 1];
      var k := MinByAreaIsFirst(p);
      if CompareSizesByArea(s[|s| - 1], MinByArea(p)) < 0 {
        i := |s| - 1;
        forall j | 0 <= j < i ensures Area(MinByArea(s)) < Area(s[j]) {
          assert s[j] in p;
        }
      } else {
        i := k;
      }
    }
  }

  /** Of several elements with the greatest area, `Collections.max` returns the first. */
  lemma {:induction false} MaxByAreaIsFirst(s: seq<Size>) returns (i: nat)
    requires |s| > 0
    ensures FirstMaximalAt(s, MaxByArea(s), i)
  {
    if |s| == 1 {
      i := 0;
    } else {
      var p := s[..|s| - 1];
      var k := MaxByAreaIsFirst(p);
      if CompareSizesByArea(s[|s| - 1], MaxByArea(p)) > 0 {
        i := |s| - 1;
        forall j | 0 <= j < i ensures Area(s[j]) < Area(MaxByArea(s)) {
          assert s[j] in p;
        }
      } else {
        i := k;
      }
    }
  }
}
