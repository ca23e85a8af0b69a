/** `detect_repeat_token` (chandra/model/util.py): flags model output whose
    tail is a short unit repeated back to back. */
module RepeatDetector {
  import opened Text

  /** Default arguments of `detect_repeat_token`. */
  const DefaultMaxRepeats: int := 4
  const DefaultWindowSize: int := 50

  /** `unit` written `k` times in a row. */
  function Repeat(unit: string, k: nat): (r: string)
    ensures |r| == k * |unit|
  {
    if k == 0 then "" else unit + Repeat(unit, k - 1)
  }

  /** `w` ends with `k` back-to-back copies of `unit`. */
  predicate EndsWithCopies(w: string, unit: string, k: nat) {
    k * |unit| <= |w| && w[|w| - k * |unit|..] == Repeat(unit, k)
  }

  /** The trailing `L` characters of `w`: the candidate unit of length `L`. */
  function Unit(w: string, L: nat): string
    requires L <= |w|
  {
    w[|w| - L..]
  }

  /** The number of copies that "more than `maxRepeats`" asks for. */
  function Needed(maxRepeats: int): nat {
    if maxRepeats + 1 < 0 then 0 else maxRepeats + 1
  }

  /** Unit length `L` is tried (it leaves room for `maxRepeats + 1` copies)
      and the window does end with more than `maxRepeats` copies of its
      trailing unit of that length. */
  predicate Qualifies(w: string, maxRepeats: int, L: nat)
  {
    && 1 <= L <= |w|
    && L * (maxRepeats + 1) <= |w|
    && EndsWithCopies(w, Unit(w, L), Needed(maxRepeats))
  }

  /** The last `windowSize` characters of `text`, lower-cased. */
  function Window(text: string, windowSize: int): string
    requires 0 < windowSize <= |text|
  {
    Lower(text[|text| - windowSize..])
  }

  /** Degeneracy as the detector's comments describe it: the text is at least
      a window long and, for some unit length from 1 to half the window, the
      window ends with more than `maxRepeats` copies of its last unit. */
  ghost predicate Degenerate(text: string, maxRepeats: int, windowSize: int) {
    && 0 < windowSize <= |text|
    && exists L: nat :: L <= windowSize / 2 && Qualifies(Window(text, windowSize), maxRepeats, L)
  }

  lemma {:induction false} RepeatSuffix(unit: string, k: nat, j: nat)
    requires j <= k
    ensures (k - j) * |unit| <= |Repeat(unit, k)|
    ensures Repeat(unit, k)[(k - j) * |unit|..] == Repeat(unit, j)
    decreases k - j
  {
    if j < k {
      RepeatSuffix(unit, k - 1, j);
      var n := |unit|;
      var rest := Repeat(unit, k - 1);
      MulStep(k - 1 - j, n);
      assert Repeat(unit, k) == unit + rest;
      assert (unit + rest)[n + (k - 1 - j) * n..] == rest[(k - 1 - j) * n..];
    }
  }

  lemma MulStep(a: nat, n: nat)
    ensures (a + 1) * n == n + a * n
  {
  }

  lemma MulAtLeast(a: int, n: int)
    requires a >= 1 && n >= 0
    ensures a * n >= n
  {
  }

  /** Scaling `j <= k` by `n`, and the difference of the products. */
  lemma MulDiff(j: nat, k: nat, n: nat)
    requires j <= k
    ensures (k - j) * n == k * n - j * n
    ensures j * n <= k * n
  {
    assert k * n == (k - j) * n + j * n;
  }

  /** Ending with `k` copies implies ending with any smaller number of them. */
  lemma CopiesMonotone(w: string, unit: string, k: nat, j: nat)
    requires j <= k
    requires EndsWithCopies(w, unit, k)
    ensures EndsWithCopies(w, unit, j)
  {
    var n := |unit|;
    MulDiff(j, k, n);
    RepeatSuffix(unit, k, j);
    var a, b := |w| - k * n, |w| - j * n;
    var d := (k - j) * n;
    assert b == a + d;
    assert w[a..][d..] == Repeat(unit, j);
    assert w[b..] == w[a..][d..];
  }

  /** One more copy: the block just in front of the `k` copies is the unit. */
  lemma CopiesStep(w: string, unit: string, k: nat)
    requires EndsWithCopies(w, unit, k)
    requires k * |unit| + |unit| <= |w|
    ensures EndsWithCopies(w, unit, k + 1) <==>
      w[|w| - (k * |unit| + |unit|)..|w| - k * |unit|] == unit
  {
    MulStep(k, |unit|);
    var a := |w| - (k * |unit| + |unit|);
    var b := |w| - k * |unit|;
    assert w[a..] == w[a..b] + w[b..];
    assert Repeat(unit, k + 1) == unit + Repeat(unit, k);
    if w[a..] == Repeat(unit, k + 1) {
      assert w[a..][..|unit|] == w[a..b];
    }
  }

  /** One step of the inner loop, for the trailing unit of length `L`
      after `k` matched copies: whether a copy more can be there, and if so
      which `L` characters decide it. */
  lemma NextCopy(w: string, L: nat, k: nat)
    requires 1 <= L <= |w|
    requires EndsWithCopies(w, Unit(w, L), k)
    ensures k * L <= |w|
    ensures (k + 1) * L == k * L + L
    ensures |w| < k * L + L ==> !EndsWithCopies(w, Unit(w, L), k + 1)
    ensures |w| >= k * L + L ==>
      (EndsWithCopies(w, Unit(w, L), k + 1) <==> w[|w| - (k * L + L)..|w| - k * L] == Unit(w, L))
  {
    MulStep(k, L);
    var u := Unit(w, L);
    assert |u| == L;
    if |w| >= k * L + L {
      CopiesStep(w, u, k);
    }
  }

  /** The inner `while pos >= 0` loop: having matched `k` copies of the
      trailing unit of length `L`, compare the `L` characters in front of
      them. It stops at the largest `count` such that `w` ends with `count`
      copies, which also bounds `count` by `|w| / L`. */
  function CountCopies(w: string, L: nat, k: nat): (count: nat)
    requires 1 <= L <= |w|
    requires EndsWithCopies(w, Unit(w, L), k)
    ensures k <= count
    ensures EndsWithCopies(w, Unit(w, L), count)
    ensures !EndsWithCopies(w, Unit(w, L), count + 1)
    ensures count * L <= |w|
    decreases |w| - k * L
  {
    NextCopy(w, L, k);
    if |w| < k * L + L then k
    else if w[|w| - (k * L + L)..|w| - k * L] == Unit(w, L) then
      assert |w| - (k + 1) * L < |w| - k * L;
      CountCopies(w, L, k + 1)
    else k
  }

  /** `count > maxRepeats` exactly when the window ends with the needed
      number of copies. */
  lemma CountExceeds(w: string, L: nat, maxRepeats: int)
    requires 1 <= L <= |w|
    ensures EndsWithCopies(w, Unit(w, L), 0)
    ensures CountCopies(w, L, 0) > maxRepeats <==> EndsWithCopies(w, Unit(w, L), Needed(maxRepeats))
  {
    var u := Unit(w, L);
    assert EndsWithCopies(w, u, 0);
    var count := CountCopies(w, L, 0);
    if count > maxRepeats {
      CopiesMonotone(w, u, count, Needed(maxRepeats));
    } else if EndsWithCopies(w, u, Needed(maxRepeats)) {
      CopiesMonotone(w, u, Needed(maxRepeats), count + 1);
    }
  }

  /** The outer `for seq_len` loop, from unit length `L` on: true iff some
      unit length from `L` to `|w| / 2` qualifies. */
  function ScanLengths(w: string, maxRepeats: int, L: nat): (r: bool)
    requires 1 <= L
    ensures r <==> exists L': nat :: L <= L' <= |w| / 2 && Qualifies(w, maxRepeats, L')
    decreases |w| / 2 + 1 - L
  {
    if L > |w| / 2 then
      false
    else if L * (maxRepeats + 1) > |w| then
      ScanLengths(w, maxRepeats, L + 1)
    else
      CountExceeds(w, L, maxRepeats);
      if CountCopies(w, L, 0) > maxRepeats then
        assert Qualifies(w, maxRepeats, L);
        true
      else ScanLengths(w, maxRepeats, L + 1)
  }

  /** `detect_repeat_token(text, max_repeats, window_size)`. When the window
      is not positive the unit-length range is empty and the answer is false. */
  function DetectRepeatToken(text: string, maxRepeats: int, windowSize: int): (r: bool)
    ensures r <==> Degenerate(text, maxRepeats, windowSize)
    ensures |text| < windowSize ==> !r
  {
    if |text| < windowSize || windowSize <= 0 then false
    else ScanLengths(Window(text, windowSize), maxRepeats, 1)
  }

  /** The verdict depends only on the lower-cased last `windowSize`
      characters. */
  lemma SameWindowSameVerdict(t1: string, t2: string, maxRepeats: int, windowSize: int)
    requires 0 < windowSize <= |t1| && windowSize <= |t2|
    requires Window(t1, windowSize) == Window(t2, windowSize)
    ensures DetectRepeatToken(t1, maxRepeats, windowSize) == DetectRepeatToken(t2, maxRepeats, windowSize)
  {
  }

  /** If `maxRepeats + 1` copies cannot fit in the window, every unit length
      is skipped and nothing is degenerate. */
  lemma NoRoomNeverDegenerate(text: string, maxRepeats: int, windowSize: int)
    requires maxRepeats + 1 > windowSize
    ensures !DetectRepeatToken(text, maxRepeats, windowSize)
  {
    if Degenerate(text, maxRepeats, windowSize) {
      var L: nat :| L <= windowSize / 2 && Qualifies(Window(text, windowSize), maxRepeats, L);
      MulAtLeast(L, maxRepeats + 1);
      assert false;
    }
  }

  lemma {:induction false} RepeatOneChar(c: char, k: nat)
    ensures forall i :: 0 <= i < k ==> Repeat([c], k)[i] == c
  {
    if k > 0 {
      RepeatOneChar(c, k - 1);
    }
  }

  /** A text ending in a window-long run of one character is degenerate,
      provided the window holds at least two characters (so that unit length
      1 is tried) and `maxRepeats` is below the window size. */
  lemma RunOfOneCharDegenerate(text: string, c: char, maxRepeats: int, windowSize: int)
    requires 2 <= windowSize <= |text|
    requires maxRepeats < windowSize
    requires forall i :: |text| - windowSize <= i < |text| ==> text[i] == c
    ensures DetectRepeatToken(text, maxRepeats, windowSize)
  {
    var w := Window(text, windowSize);
    var k := Needed(maxRepeats);
    assert Unit(w, 1) == [LowerChar(c)];
    RepeatOneChar(LowerChar(c), k);
    assert w[|w| - k..] == Repeat([LowerChar(c)], k);
    assert Qualifies(w, maxRepeats, 1);
  }

  /** With two copies of the trailing unit at its end, the window repeats
      its first unit character `L` positions earlier. */
  lemma TwoCopiesRepeatChar(w: string, L: nat)
    requires 1 <= L && 2 * L <= |w|
    requires EndsWithCopies(w, Unit(w, L), 2)
    ensures w[|w| - 2 * L] == w[|w| - L]
  {
    var u := Unit(w, L);
    CopiesMonotone(w, u, 2, 1);
    CopiesStep(w, u, 1);
    assert w[|w| - 2 * L..|w| - L][0] == u[0];
  }

  /** A window of pairwise distinct characters is never degenerate once at
      least two copies are needed. */
  lemma {:induction false} DistinctWindowNotDegenerate(text: string, maxRepeats: int, windowSize: int)
    requires 0 < windowSize <= |text|
    requires maxRepeats >= 1
    requires forall i, j :: 0 <= i < j < windowSize ==> Window(text, windowSize)[i] != Window(text, windowSize)[j]
    ensures !DetectRepeatToken(text, maxRepeats, windowSize)
  {
    var w := Window(text, windowSize);
    if Degenerate(text, maxRepeats, windowSize) {
      var L: nat :| L <= windowSize / 2 && Qualifies(w, maxRepeats, L);
      CopiesMonotone(w, Unit(w, L), Needed(maxRepeats), 2);
      TwoCopiesRepeatChar(w, L);
      assert false;
    }
  }

  /** Worked example: "abababababab" with a window of 10 and at most 3
      repeats is degenerate (unit "ab", five copies in the window). */
  lemma ExampleAlternatingDegenerate()
    ensures DetectRepeatToken("abababababab", 3, 10)
  {
    var w := Window("abababababab", 10);
    assert w == "ababababab";
    assert Repeat("ab", 2) == "abab";
    assert Repeat("ab", 4) == "abababab";
    assert Unit(w, 2) == "ab";
    assert w[|w| - 8..] == "abababab";
    assert Qualifies(w, 3, 2);
  }

  /** Worked example: a sentence shorter than the default window is never
      degenerate. */
  lemma ExampleShortSentence()
    ensures !DetectRepeatToken("the quick brown fox", DefaultMaxRepeats, DefaultWindowSize)
  {
  }
}
