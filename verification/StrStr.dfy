/** `fast_strstr`, the rolling-sum search behind `bip_buf_find_str`.

    Characters are signed bytes, the running difference is an unsigned 32-bit
    word.  `Search` takes the amount subtracted from the initial difference:
    the code subtracts nothing; subtracting the needle's first character is
    what its own comment describes: the window's sum minus the needle's. */
module StrStr {

  type char8 = x: int | -128 <= x < 128
  type Text = seq<char8>

  const WORD := 0x1_0000_0000

  function Total(s: Text): int {
    if s == [] then 0 else Total(s[..|s| - 1]) + s[|s| - 1]
  }

  // ---- what a search should find -------------------------------------------

  ghost predicate Occurs(h: Text, needle: Text, j: int) {
    0 <= j && j + |needle| <= |h| && h[j..j + |needle|] == needle
  }

  /** `r` is the leftmost occurrence, or -1 when there is none. */
  ghost predicate IsLeftmost(h: Text, needle: Text, r: int) {
    && (r == -1 || Occurs(h, needle, r))
    && forall j :: 0 <= j < (if r == -1 then |h| + 1 else r) ==> !Occurs(h, needle, j)
  }

  // ---- what the code finds -------------------------------------------------

  /** Window sum minus needle sum plus the offset: what the running difference
      stands for. */
  function Difference(window: Text, part: Text, d: int): int {
    Total(window) - Total(part) + d
  }

  /** The test inside the rolling loop, when the running difference is off by
      `d`: the sums agree, and all characters but the last. */
  ghost predicate Hit(h: Text, needle: Text, d: int, j: int) {
    && 0 <= j && 0 < |needle| && j + |needle| <= |h|
    && Difference(h[j..j + |needle|], needle, d) % WORD == 0
    && h[j] == needle[0] && h[j..j + |needle| - 1] == needle[..|needle| - 1]
  }

  /** `f` is the position of the needle's first character, or -1. */
  ghost predicate IsFirstMatch(h: Text, c: char8, f: int) {
    && -1 <= f < |h| && (f >= 0 ==> h[f] == c)
    && forall j :: 0 <= j < (if f == -1 then |h| else f) ==> h[j] != c
  }

  /** Everything the search returns, for every haystack and needle. */
  ghost predicate Returns(h: Text, needle: Text, d: int, f: int, r: int) {
    if needle == [] then r == 0
    else if f == -1 || f + |needle| > |h| then r == -1
    else if Occurs(h, needle, f) then r == f
    else
      && (r == -1 || (r > f && Hit(h, needle, d, r)))
      && forall j :: f < j < (if r == -1 then |h| else r) ==> !Hit(h, needle, d, j)
  }

  method Memchr(h: Text, c: char8) returns (f: int)
    ensures IsFirstMatch(h, c, f)
  {
    f := 0;
    while f < |h|
      invariant 0 <= f <= |h| && forall j :: 0 <= j < f ==> h[j] != c
    {
      if h[f] == c {
        return;
      }
      f := f + 1;
    }
    f := -1;
  }

  lemma TotalPush(s: Text, i: nat, j: nat)
    requires i <= j < |s|
    ensures Total(s[i..j + 1]) == Total(s[i..j]) + s[j]
  {
    assert s[i..j + 1][..j - i] == s[i..j];
  }

  lemma {:induction false} TotalPop(s: Text)
    requires |s| > 0
    ensures Total(s) == s[0] + Total(s[1..])
  {
    if |s| > 1 {
      TotalPop(s[..|s| - 1]);
      assert s[..|s| - 1][1..] == s[1..][..|s| - 2];
    }
  }

  /** Sliding the window by one keeps its sum up to date. */
  lemma TotalSlide(s: Text, i: nat, n: nat)
    requires i + n < |s| && n > 0
    ensures Total(s[i + 1..i + n + 1]) == Total(s[i..i + n]) - s[i] + s[i + n]
  {
    TotalPop(s[i..i + n]);
    assert s[i..i + n][1..] == s[i + 1..i + n];
    TotalPush(s, i + 1, i + n);
  }

  /** One unsigned update of the running difference. */
  function Updated(sumsDiff: int, add: char8, sub: char8): int {
    (sumsDiff + add - sub) % WORD
  }

  lemma UpdatedIs(a: int, add: char8, sub: char8)
    ensures Updated(a % WORD, add, sub) == (a + add - sub) % WORD
  {
  }

  /** One more character in both: the difference moves by theirs, and the two
      stay equal exactly if the new characters are. */
  lemma WindowStep(h: Text, needle: Text, first: nat, i: nat, d: int)
    requires first + i < |h| && i < |needle|
    ensures Difference(h[first..first + i + 1], needle[..i + 1], d)
         == Difference(h[first..first + i], needle[..i], d) + h[first + i] as int - needle[i] as int
    ensures h[first..first + i + 1] == needle[..i + 1] <==> h[first..first + i] == needle[..i] && h[first + i] == needle[i]
  {
    TotalPush(h, first, first + i);
    TotalPush(needle, 0, i);
    var a, b := h[first..first + i], needle[..i];
    assert h[first..first + i + 1] == a + [h[first + i]] && needle[..i + 1] == b + [needle[i]];
    assert (a + [h[first + i]])[..i] == a && (b + [needle[i]])[..i] == b;
    assert (a + [h[first + i]])[i] == h[first + i] && (b + [needle[i]])[i] == needle[i];
  }

  /** The first loop: compares and sums the window at the first match.  It
      stops early when the haystack ends. */
  method FirstWindow(h: Text, needle: Text, first: nat, bias: int) returns (i: nat, sumsDiff: int, identical: bool)
    requires needle != [] && first < |h| && h[first] == needle[0]
    ensures i == if first + |needle| <= |h| then |needle| else |h| - first
    ensures sumsDiff == Difference(h[first..first + i], needle[..i], needle[0] - bias) % WORD
    ensures identical <==> h[first..first + i] == needle[..i]
  {
    i := 1;
    sumsDiff := (h[first] - bias) % WORD;
    identical := true;
    assert h[first..first + 1] == needle[..1] == [needle[0]];
    while first + i < |h| && i < |needle|
      invariant 1 <= i <= |needle| && first + i <= |h|
      invariant sumsDiff == Difference(h[first..first + i], needle[..i], needle[0] - bias) % WORD
      invariant identical <==> h[first..first + i] == needle[..i]
    {
      WindowStep(h, needle, first, i, needle[0] - bias);
      UpdatedIs(Difference(h[first..first + i], needle[..i], needle[0] - bias), h[first + i], needle[i]);
      sumsDiff := Updated(sumsDiff, h[first + i], needle[i]);
      identical := identical && h[first + i] == needle[i];
      i := i + 1;
    }
  }

  /** The rolling loop, entered with the difference `d` for the window at
      `first`.  It keeps the difference equal to window sum minus needle sum
      plus `d`, modulo 2^32. */
  method Roll(h: Text, needle: Text, first: nat, d: int, start: int) returns (r: int)
    requires needle != [] && first + |needle| <= |h|
    requires start == Difference(h[first..first + |needle|], needle, d) % WORD
    ensures r == -1 || (first < r && Hit(h, needle, d, r))
    ensures forall j :: first < j < (if r == -1 then |h| else r) ==> !Hit(h, needle, d, j)
  {
    var n := |needle|;
    var sub := first;
    var sumsDiff := start;
    while sub + n < |h|
      invariant first <= sub && sub + n <= |h|
      invariant sumsDiff == Difference(h[sub..sub + n], needle, d) % WORD
      invariant forall j :: first < j <= sub ==> !Hit(h, needle, d, j)
    {
      TotalSlide(h, sub, n);
      UpdatedIs(Difference(h[sub..sub + n], needle, d), h[sub + n], h[sub]);
      sumsDiff := Updated(sumsDiff, h[sub + n], h[sub]);
      sub := sub + 1;
      if sumsDiff == 0 && needle[0] == h[sub] && h[sub..sub + n - 1] == needle[..n - 1] {
        return sub;
      }
    }
    return -1;
  }

  /** `fast_strstr`; `bias` is subtracted from the initial difference. */
  method Search(h: Text, needle: Text, bias: int) returns (r: int, ghost f: int)
    ensures needle != [] ==> IsFirstMatch(h, needle[0], f) && Returns(h, needle, needle[0] - bias, f, r)
    ensures needle == [] ==> r == 0
  {
    f := -1;
    if needle == [] {
      return 0, -1;
    }
    var first := Memchr(h, needle[0]);
    f := first;
    if first == -1 {
      return -1, f;
    }
    var i, sumsDiff, identical := FirstWindow(h, needle, first, bias);
    if i < |needle| {
      return -1, f;
    }
    assert needle[..i] == needle;
    if identical {
      return first, f;
    }
    r := Roll(h, needle, first, needle[0] - bias, sumsDiff);
  }

  /** The code as it stands: nothing is subtracted. */
  method FastStrstr(h: Text, needle: Text) returns (r: int, ghost f: int)
    ensures needle != [] ==> IsFirstMatch(h, needle[0], f) && Returns(h, needle, needle[0], f, r)
    ensures needle == [] ==> r == 0
  {
    r, f := Search(h, needle, 0);
  }

  /** With the needle's first character subtracted it is the leftmost search. */
  method SeededStrstr(h: Text, needle: Text) returns (r: int)
    ensures IsLeftmost(h, needle, r)
  {
    ghost var f;
    r, f := Search(h, needle, if needle == [] then 0 else needle[0]);
    if needle == [] {
      assert h[0..0] == [];
    } else {
      ReturnsLeftmost(h, needle, f, r);
    }
  }

  // ---- what a hit means ----------------------------------------------------

  /** Comparing all characters but the last leaves the sums to decide the last
      one: it must be the needle's last character minus `d`. */
  lemma HitDecidesLast(h: Text, needle: Text, d: int, j: int)
    requires -256 <= d <= 256 && |needle| > 1 && 0 <= j && j + |needle| <= |h|
    ensures Hit(h, needle, d, j) <==>
      h[j..j + |needle| - 1] == needle[..|needle| - 1] && h[j + |needle| - 1] == needle[|needle| - 1] - d
  {
    var n := |needle|;
    TotalPush(h, j, j + n - 1);
    TotalPush(needle, 0, n - 1);
    assert needle[..n] == needle;
    if h[j..j + n - 1] == needle[..n - 1] {
      assert h[j] == h[j..j + n - 1][0] == needle[0];
    }
  }

  /** With no offset a hit is an occurrence. */
  lemma HitIsOccurrence(h: Text, needle: Text, j: int)
    requires |needle| > 1
    ensures Hit(h, needle, 0, j) <==> Occurs(h, needle, j)
  {
    var n := |needle|;
    if 0 <= j && j + n <= |h| {
      HitDecidesLast(h, needle, 0, j);
      assert h[j..j + n] == h[j..j + n - 1] + [h[j + n - 1]];
      assert needle == needle[..n - 1] + [needle[n - 1]];
    }
  }

  /** No occurrence lies before the first match of the first character. */
  lemma NoneBeforeFirst(h: Text, needle: Text, f: int, j: int)
    requires needle != [] && IsFirstMatch(h, needle[0], f) && Occurs(h, needle, j)
    ensures 0 <= f <= j
  {
    assert h[j] == h[j..j + |needle|][0];
  }

  /** A one-character needle stands at the first match of its character. */
  lemma ShortNeedle(h: Text, needle: Text, f: int)
    requires |needle| == 1 && IsFirstMatch(h, needle[0], f)
    ensures f >= 0 ==> Occurs(h, needle, f)
  {
    assert f >= 0 ==> h[f..f + 1] == [h[f]];
  }

  lemma ReturnsLeftmost(h: Text, needle: Text, f: int, r: int)
    requires needle != [] && IsFirstMatch(h, needle[0], f) && Returns(h, needle, 0, f, r)
    ensures IsLeftmost(h, needle, r)
  {
    if |needle| == 1 {
      ShortNeedle(h, needle, f);
    } else {
      forall j ensures Hit(h, needle, 0, j) <==> Occurs(h, needle, j) {
        HitIsOccurrence(h, needle, j);
      }
    }
    forall j | Occurs(h, needle, j) ensures 0 <= f <= j {
      NoneBeforeFirst(h, needle, f, j);
    }
  }

  // ---- when the shipped code is right --------------------------------------

  /** The needle, but with its last character lowered by its first. */
  ghost predicate OccursLowered(h: Text, needle: Text, j: int)
    requires needle != []
  {
    var n := |needle|;
    0 <= j && j + n <= |h| && h[j..j + n - 1] == needle[..n - 1] && h[j + n - 1] as int == needle[n - 1] as int - needle[0] as int
  }

  /** The needle is one character or starts with a zero character, or it stands
      right at the first match, or the first match is too close to the end for
      it, or neither the needle nor the lowered needle occurs after the first
      match.  All but the last a caller can check without a search;
      `NeedleIsSafeExactlyWhen` asks for the needle alone. */
  ghost predicate SafeToSearch(h: Text, needle: Text, f: int)
    requires needle != []
  {
    || |needle| == 1 || needle[0] == 0
    || f == -1 || f + |needle| > |h| || Occurs(h, needle, f)
    || forall j :: f < j < |h| ==> !Occurs(h, needle, j) && !OccursLowered(h, needle, j)
  }

  /** A hit of the shipped loop is a place of the lowered needle, and never one
      of the needle itself. */
  lemma ShippedHit(h: Text, needle: Text, j: int)
    requires |needle| > 1 && needle[0] != 0
    ensures Hit(h, needle, needle[0], j) <==> OccursLowered(h, needle, j)
    ensures !(OccursLowered(h, needle, j) && Occurs(h, needle, j))
  {
    var n := |needle|;
    if 0 <= j && j + n <= |h| {
      HitDecidesLast(h, needle, needle[0], j);
      assert Occurs(h, needle, j) ==> h[j + n - 1] == h[j..j + n][n - 1];
    }
  }

  /** The shipped search gives the leftmost occurrence exactly when this
      holds. */
  lemma ShippedIsRightExactlyWhen(h: Text, needle: Text, f: int, r: int)
    requires needle != [] && IsFirstMatch(h, needle[0], f) && Returns(h, needle, needle[0], f, r)
    ensures IsLeftmost(h, needle, r) <==> SafeToSearch(h, needle, f)
  {
    forall j | Occurs(h, needle, j) ensures 0 <= f <= j {
      NoneBeforeFirst(h, needle, f, j);
    }
    if |needle| == 1 {
      ShortNeedle(h, needle, f);
    } else if needle[0] == 0 {
      ReturnsLeftmost(h, needle, f, r);
    } else {
      forall j
        ensures Hit(h, needle, needle[0], j) <==> OccursLowered(h, needle, j)
        ensures !(OccursLowered(h, needle, j) && Occurs(h, needle, j))
      {
        ShippedHit(h, needle, j);
      }
    }
  }

  /** Behind the first match the answer is never right: what is found there is
      no occurrence, and no occurrence there is found. */
  lemma NothingRightBehindFirst(h: Text, needle: Text, f: int, r: int)
    requires |needle| > 1 && needle[0] != 0
    requires IsFirstMatch(h, needle[0], f) && Returns(h, needle, needle[0], f, r)
    ensures r > f ==> !Occurs(h, needle, r)
    ensures forall j :: j > f && Occurs(h, needle, j) ==> r != j
    ensures r >= 0 && Occurs(h, needle, r) ==> r == f
  {
    if r > f {
      ShippedHit(h, needle, r);
    }
  }

  /** Every other needle is searched for wrongly in some haystack: a character
      that differs from the needle's first two, put between its first character
      and the needle, hides the needle. */
  lemma UnsafeNeedle(needle: Text) returns (h: Text)
    requires |needle| > 1 && needle[0] != 0
    ensures IsFirstMatch(h, needle[0], 0) && forall r :: Returns(h, needle, needle[0], 0, r) ==> !IsLeftmost(h, needle, r)
  {
    var x: char8 := if needle[0] != 1 && needle[1] != 1 then 1 else if needle[0] != 2 && needle[1] != 2 then 2 else 3;
    h := [needle[0], x] + needle;
    assert h[2..2 + |needle|] == needle;
    forall r | Returns(h, needle, needle[0], 0, r) ensures !IsLeftmost(h, needle, r) {
      NothingRightBehindFirst(h, needle, 0, r);
      assert h[0..|needle|][1] == x;
      assert Occurs(h, needle, 2);
    }
  }

  /** Searching for the needle is right in every haystack if and only if the
      needle has at most one character or starts with a zero character. */
  lemma NeedleIsSafeExactlyWhen(needle: Text)
    requires needle != []
    ensures (forall h, f, r :: IsFirstMatch(h, needle[0], f) && Returns(h, needle, needle[0], f, r) ==> IsLeftmost(h, needle, r))
       <==> |needle| == 1 || needle[0] == 0
  {
    if |needle| == 1 || needle[0] == 0 {
      forall h, f, r | IsFirstMatch(h, needle[0], f) && Returns(h, needle, needle[0], f, r) ensures IsLeftmost(h, needle, r) {
        ShippedIsRightExactlyWhen(h, needle, f, r);
      }
    } else {
      var h := UnsafeNeedle(needle);
      var r := SomeReturn(h, needle, 0);
    }
  }

  /** The search always has an answer. */
  lemma SomeReturn(h: Text, needle: Text, f: nat) returns (r: int)
    requires needle != [] && IsFirstMatch(h, needle[0], f)
    ensures Returns(h, needle, needle[0], f, r)
  {
    r := -1;
    if f + |needle| <= |h| {
      if Occurs(h, needle, f) {
        r := f;
      } else {
        r := FirstHit(h, needle, needle[0], f + 1);
      }
    }
  }

  lemma {:induction false} FirstHit(h: Text, needle: Text, d: int, from: nat) returns (r: int)
    requires from <= |h| + 1
    ensures r == -1 || (r >= from && Hit(h, needle, d, r))
    ensures forall j :: from <= j < (if r == -1 then |h| else r) ==> !Hit(h, needle, d, j)
    decreases |h| + 1 - from
  {
    if from >= |h| {
      r := -1;
    } else if Hit(h, needle, d, from) {
      r := from;
    } else {
      r := FirstHit(h, needle, d, from + 1);
    }
  }

  /** And what it finds need not be there: [1, 2] in [1, 5, 1, 1] is answered 2. */
  lemma ShippedInvents(r: int)
    requires Returns([1, 5, 1, 1], [1, 2], 1, 0, r)
    ensures r == 2 && IsFirstMatch([1, 5, 1, 1], 1, 0) && forall j :: !Occurs([1, 5, 1, 1], [1, 2], j)
  {
    var h: Text, needle: Text := [1, 5, 1, 1], [1, 2];
    assert h[0..2] == [1, 5] && h[1..3] == [5, 1] && h[2..4] == [1, 1];
    assert h[0..1] == [1] && h[1..2] == [5] && h[2..3] == [1] && needle[..1] == [1];
    forall j ensures !Occurs(h, needle, j) && (Hit(h, needle, 1, j) && j > 0 ==> j == 2) {
      if 0 <= j <= 2 {
        HitDecidesLast(h, needle, 1, j);
      }
    }
    HitDecidesLast(h, needle, 1, 2);
  }

  /** "ab" in "aab": it occurs at 1, the shipped code answers "not found". */
  lemma ShippedMisses(r: int)
    requires Returns([97, 97, 98], [97, 98], 97, 0, r)
    ensures r == -1 && Occurs([97, 97, 98], [97, 98], 1)
  {
    var h: Text, needle: Text := [97, 97, 98], [97, 98];
    assert h[0..2] == [97, 97] && h[1..3] == needle;
    if r > 0 {
      HitDecidesLast(h, needle, 97, r);
    }
  }
}
