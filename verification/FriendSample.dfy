/** The friends that user_info shows: up to six different random indexes. */
module FriendSample {
  const MAX_FRIENDS: nat := 6

  function SampleSize(friends: nat): (n: nat)
    ensures n <= friends && n <= 6 && (n == friends || n == 6)
  {
    if friends < MAX_FRIENDS then friends else MAX_FRIENDS
  }

  /** The n-th result of the random generator. */
  type Draws = nat -> nat

  function FirstDraws(draw: Draws, n: nat): (s: seq<nat>)
    ensures |s| == n
  {
    if n == 0 then [] else FirstDraws(draw, n - 1) + [draw(n - 1)]
  }

  /** The different values in `s`, in the order in which they first occur. */
  function FirstDistinct(s: seq<nat>): seq<nat> {
    if s == [] then []
    else
      var before, x := FirstDistinct(s[..|s| - 1]), s[|s| - 1];
      if x in before then before else before + [x]
  }

  function SeenBy(draw: Draws, n: nat): seq<nat> {
    FirstDistinct(FirstDraws(draw, n))
  }

  predicate Distinct(s: seq<nat>) {
    forall i, j :: 0 <= i < j < |s| ==> s[i] != s[j]
  }

  lemma SeenStep(draw: Draws, n: nat)
    ensures SeenBy(draw, n + 1) ==
      if draw(n) in SeenBy(draw, n) then SeenBy(draw, n) else SeenBy(draw, n) + [draw(n)]
  {
    var s := FirstDraws(draw, n + 1);
    assert s[..|s| - 1] == FirstDraws(draw, n);
  }

  /** What was seen stays seen, in the same place. */
  lemma {:induction false} SeenGrows(draw: Draws, n: nat, m: nat)
    requires n <= m
    ensures SeenBy(draw, n) <= SeenBy(draw, m)
    decreases m
  {
    if n < m {
      SeenGrows(draw, n, m - 1);
      SeenStep(draw, m - 1);
    }
  }

  lemma DistinctAppend(s: seq<nat>, x: nat)
    requires Distinct(s) && x !in s
    ensures Distinct(s + [x])
  {
    forall i, j | 0 <= i < j < |s + [x]|
      ensures (s + [x])[i] != (s + [x])[j]
    {
      assert (s + [x])[i] == s[i] && s[i] in s;
    }
  }

  predicate InRange(s: seq<nat>, friends: nat) {
    forall i :: 0 <= i < |s| ==> s[i] < friends
  }

  lemma {:induction false} SeenIsSample(draw: Draws, friends: nat, n: nat)
    requires forall k: nat :: draw(k) < friends
    ensures Distinct(SeenBy(draw, n)) && InRange(SeenBy(draw, n), friends)
  {
    if n > 0 {
      SeenIsSample(draw, friends, n - 1);
      SeenStep(draw, n - 1);
      var before := SeenBy(draw, n - 1);
      hide SeenBy, Distinct;
      if draw(n - 1) !in before {
        DistinctAppend(before, draw(n - 1));
      }
    }
  }

  /** std::find over the indexes before `i`. */
  method FindBefore(indexes: array<nat>, i: nat, x: nat) returns (found: bool)
    requires i <= indexes.Length
    ensures found <==> x in indexes[..i]
  {
    for j := 0 to i
      invariant x !in indexes[..j]
    {
      if indexes[j] == x {
        return true;
      }
    }
    return false;
  }

  /** The nested loops of user_info. They end when the draws show as many
      different values as the sample needs; `enough` draws do. `drawn` is how
      many were made: the first number that fills the sample. */
  method FillIndexes(friends: nat, draw: Draws, ghost enough: nat) returns (indexes: array<nat>, drawn: nat)
    requires friends > 0 ==> forall k: nat :: draw(k) < friends
    requires |SeenBy(draw, enough)| >= SampleSize(friends)
    ensures indexes.Length == MAX_FRIENDS && drawn <= enough
    ensures indexes[..SampleSize(friends)] == Kept(draw, SampleSize(friends), drawn)
    ensures forall n :: 0 <= n < drawn ==> |Kept(draw, SampleSize(friends), n)| < SampleSize(friends)
    ensures indexes[..SampleSize(friends)] == SeenBy(draw, enough)[..SampleSize(friends)]
    ensures Distinct(indexes[..SampleSize(friends)])
    ensures forall i :: 0 <= i < SampleSize(friends) ==> indexes[i] < friends
  {
    indexes := new nat[MAX_FRIENDS];
    var sampleSize := SampleSize(friends);
    drawn := 0;
    SeenGrows(draw, 0, enough);
    var i := 0;
    while i < sampleSize
      invariant 0 <= i <= sampleSize && drawn <= enough
      invariant indexes[..i] == SeenBy(draw, drawn)
      invariant forall n :: 0 <= n < drawn ==> |SeenBy(draw, n)| < sampleSize
    {
      drawn := DrawUnused(indexes, i, sampleSize, draw, drawn, enough);
      i := i + 1;
    }
    SeenGrows(draw, drawn, enough);
    if friends > 0 {
      SeenIsSample(draw, friends, drawn);
    }
    assert indexes[..sampleSize] == SeenBy(draw, drawn);
    KeptAreSeen(draw, sampleSize, drawn);
    forall n | 0 <= n < drawn
      ensures |Kept(draw, sampleSize, n)| < sampleSize
    {
      KeptAreSeen(draw, sampleSize, n);
    }
  }

  /** The inner loop: draws until the value is not among the first `i`. */
  method DrawUnused(indexes: array<nat>, i: nat, sampleSize: nat, draw: Draws, start: nat, ghost enough: nat)
    returns (drawn: nat)
    requires i < sampleSize <= indexes.Length && start <= enough
    requires indexes[..i] == SeenBy(draw, start) && |SeenBy(draw, enough)| >= sampleSize
    modifies indexes
    ensures start < drawn <= enough && indexes[..i + 1] == SeenBy(draw, drawn)
    ensures forall n :: start <= n < drawn ==> SeenBy(draw, n) == SeenBy(draw, start)
  {
    drawn := start;
    var again := true;
    hide SeenBy;
    while again
      invariant start <= drawn <= enough && (!again ==> start < drawn)
      invariant indexes[..i] == old(indexes[..i]) == SeenBy(draw, start)
      invariant forall n :: start <= n < drawn ==> SeenBy(draw, n) == SeenBy(draw, start)
      invariant if again then SeenBy(draw, drawn) == indexes[..i] else SeenBy(draw, drawn) == indexes[..i + 1]
      decreases again, enough - drawn
    {
      assert drawn < enough by {
        SeenGrows(draw, drawn, enough);
      }
      ghost var before := indexes[..i];
      indexes[i] := draw(drawn);
      assert indexes[..i] == before && indexes[..i + 1] == before + [draw(drawn)];
      SeenStep(draw, drawn);
      drawn := drawn + 1;
      again := FindBefore(indexes, i, indexes[i]);
    }
  }

  // ----- Termination -----

  function Below(n: nat): set<nat> {
    if n == 0 then {} else Below(n - 1) + {n - 1}
  }

  lemma {:induction false} BelowIs(n: nat)
    ensures |Below(n)| == n && forall x: nat :: x in Below(n) <==> x < n
  {
    if n > 0 {
      BelowIs(n - 1);
    }
  }

  function Elements(s: seq<nat>): (e: set<nat>)
    ensures |e| <= |s|
  {
    if s == [] then {} else {s[0]} + Elements(s[1..])
  }

  lemma {:induction false} ElementsAre(s: seq<nat>)
    ensures forall x :: x in Elements(s) <==> x in s
  {
    if s != [] {
      ElementsAre(s[1..]);
    }
  }

  lemma {:induction false} SubsetCount(a: set<nat>, b: set<nat>)
    requires a <= b
    ensures |a| <= |b|
  {
    if a != {} {
      var x :| x in a;
      SubsetCount(a - {x}, b - {x});
    }
  }

  /** Pigeonhole: while the sample is not complete, some index is unused. */
  lemma UnusedExists(friends: nat, used: seq<nat>) returns (x: nat)
    requires |used| < friends
    ensures x < friends && x !in used
  {
    BelowIs(friends);
    ElementsAre(used);
    var unused := Below(friends) - Elements(used);
    if unused == {} {
      SubsetCount(Below(friends), Elements(used));
    }
    x :| x in unused;
  }

  ghost predicate ComesUp(draw: Draws, x: nat) {
    exists k: nat :: draw(k) == x
  }

  /** Every index comes up at some time. */
  ghost predicate Fair(draw: Draws, friends: nat) {
    forall x: nat :: x < friends ==> ComesUp(draw, x)
  }

  lemma DrawnIsSeen(draw: Draws, k: nat, n: nat)
    requires k < n
    ensures draw(k) in SeenBy(draw, n)
  {
    SeenStep(draw, k);
    SeenGrows(draw, k + 1, n);
    assert draw(k) in SeenBy(draw, k + 1);
  }

  /** So on fair draws the loops end, for any number of friends. */
  lemma {:induction false} FairIsEnough(draw: Draws, friends: nat, size: nat) returns (enough: nat)
    requires Fair(draw, friends) && size <= friends
    ensures |SeenBy(draw, enough)| >= size
    decreases size
  {
    if size == 0 {
      enough := 0;
    } else {
      var n := FairIsEnough(draw, friends, size - 1);
      if |SeenBy(draw, n)| >= size {
        enough := n;
      } else {
        var x := UnusedExists(friends, SeenBy(draw, n));
        assert ComesUp(draw, x);
        var k: nat :| draw(k) == x;
        enough := k + 1;
        if k < n {
          DrawnIsSeen(draw, k, n);
        } else {
          SeenGrows(draw, n, k + 1);
          DrawnIsSeen(draw, k, k + 1);
        }
      }
    }
  }

  /** On draws that never show enough values no number of passes suffices. */
  lemma {:induction false} StuckDraws(draw: Draws, x: nat, n: nat)
    requires forall k: nat :: draw(k) == x
    ensures |SeenBy(draw, n)| <= 1
  {
    if n > 0 {
      StuckDraws(draw, x, n - 1);
      SeenStep(draw, n - 1);
      if n > 1 {
        DrawnIsSeen(draw, n - 2, n - 1);
      }
    }
  }

  // ----- Exactly when the loops end -----

  /** The indexes kept after `n` draws of the nested loops. */
  function Kept(draw: Draws, size: nat, n: nat): seq<nat> {
    if n == 0 then []
    else
      var before := Kept(draw, size, n - 1);
      if |before| >= size || draw(n - 1) in before then before else before + [draw(n - 1)]
  }

  ghost predicate Filled(draw: Draws, size: nat) {
    exists n: nat :: |Kept(draw, size, n)| == size
  }

  lemma {:induction false} KeptAreSeen(draw: Draws, size: nat, n: nat)
    ensures |Kept(draw, size, n)| < size ==> Kept(draw, size, n) == SeenBy(draw, n)
    ensures |Kept(draw, size, n)| <= size
    ensures Kept(draw, size, n) <= SeenBy(draw, n)
  {
    if n > 0 {
      KeptAreSeen(draw, size, n - 1);
      SeenStep(draw, n - 1);
      hide SeenBy;
    }
  }

  ghost predicate ShowsEnough(draw: Draws, size: nat) {
    exists n: nat :: |SeenBy(draw, n)| >= size
  }

  /** Some `size` different values come up. */
  ghost predicate EnoughComeUp(draw: Draws, size: nat) {
    exists values: seq<nat> :: |values| == size && Distinct(values) && AllComeUp(draw, values)
  }

  ghost predicate AllComeUp(draw: Draws, values: seq<nat>) {
    forall i :: 0 <= i < |values| ==> ComesUp(draw, values[i])
  }

  lemma {:induction false} SeenComeUp(draw: Draws, n: nat)
    ensures Distinct(SeenBy(draw, n)) && AllComeUp(draw, SeenBy(draw, n))
  {
    if n > 0 {
      SeenComeUp(draw, n - 1);
      SeenStep(draw, n - 1);
      assert ComesUp(draw, draw(n - 1));
      var before := SeenBy(draw, n - 1);
      hide SeenBy, ComesUp, Distinct;
      if draw(n - 1) !in before {
        DistinctAppend(before, draw(n - 1));
      }
    }
  }

  lemma {:induction false} DistinctCount(s: seq<nat>)
    requires Distinct(s)
    ensures |Elements(s)| == |s|
  {
    if s != [] {
      assert forall i, j :: 0 <= i < j < |s[1..]| ==> s[1..][i] == s[i + 1] && s[1..][j] == s[j + 1];
      DistinctCount(s[1..]);
      ElementsAre(s[1..]);
      assert s[0] !in s[1..];
    }
  }

  lemma {:induction false} AllAreSeen(draw: Draws, values: seq<nat>) returns (n: nat)
    requires AllComeUp(draw, values)
    ensures forall x :: x in values ==> x in SeenBy(draw, n)
  {
    if values == [] {
      n := 0;
    } else {
      var last := |values| - 1;
      assert forall i :: 0 <= i < last ==> values[..last][i] == values[i];
      var m := AllAreSeen(draw, values[..last]);
      assert ComesUp(draw, values[last]);
      var k: nat :| draw(k) == values[last];
      n := if m > k then m else k + 1;
      DrawnIsSeen(draw, k, n);
      SeenGrows(draw, m, n);
      forall x | x in values
        ensures x in SeenBy(draw, n)
      {
        assert x == values[last] || x in values[..last];
        assert x in SeenBy(draw, m) ==> x in SeenBy(draw, n);
      }
    }
  }

  lemma ComeUpShows(draw: Draws, values: seq<nat>)
    requires Distinct(values) && AllComeUp(draw, values)
    ensures ShowsEnough(draw, |values|)
  {
    var n := AllAreSeen(draw, values);
    DistinctCount(values);
    ElementsAre(values);
    ElementsAre(SeenBy(draw, n));
    SubsetCount(Elements(values), Elements(SeenBy(draw, n)));
  }

  lemma ShowsComeUp(draw: Draws, n: nat, size: nat)
    requires |SeenBy(draw, n)| >= size
    ensures EnoughComeUp(draw, size)
  {
    SeenComeUp(draw, n);
    var values := SeenBy(draw, n)[..size];
    hide SeenBy;
    assert |values| == size && Distinct(values) && AllComeUp(draw, values);
  }

  /** The sample is filled if and only if the draws ever show as many different
      values as it needs, that is, if so many different values come up at all. */
  lemma FilledIff(draw: Draws, size: nat)
    ensures Filled(draw, size) <==> ShowsEnough(draw, size)
    ensures ShowsEnough(draw, size) <==> EnoughComeUp(draw, size)
  {
    if Filled(draw, size) {
      var n: nat :| |Kept(draw, size, n)| == size;
      KeptAreSeen(draw, size, n);
      assert |SeenBy(draw, n)| >= size;
    }
    if ShowsEnough(draw, size) {
      var n: nat :| |SeenBy(draw, n)| >= size;
      KeptAreSeen(draw, size, n);
      assert |Kept(draw, size, n)| == size;
      ShowsComeUp(draw, n, size);
    }
    if EnoughComeUp(draw, size) {
      var values: seq<nat> :| |values| == size && Distinct(values) && AllComeUp(draw, values);
      ComeUpShows(draw, values);
    }
  }
}
