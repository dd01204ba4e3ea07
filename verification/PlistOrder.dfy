/**
 The order kept by a plist, on sequences: sorted by priority, first come first served within a
 priority, and one representative for every priority in use.
 */
module PlistOrder {
  import opened Sequences
  import S = StableSort

  datatype Option<T> = None | Some(value: T)

  type Prio<!T> = T -> int

  ghost predicate Ordered<T>(prio: Prio<T>, s: seq<T>) {
    forall i, j | 0 <= i < j < |s| :: prio(s[i]) <= prio(s[j])
  }

  /** How many entries a linear scan passes before it finds a larger priority than `p`. */
  function Place<T>(prio: Prio<T>, s: seq<T>, p: int): (k: nat)
    ensures k <= |s|
    ensures forall i | 0 <= i < k :: prio(s[i]) <= p
    ensures k < |s| ==> prio(s[k]) > p
  {
    if s == [] || prio(s[0]) > p then 0 else 1 + Place(prio, s[1..], p)
  }

  function Inserted<T>(prio: Prio<T>, s: seq<T>, x: T): seq<T> {
    s[..Place(prio, s, prio(x))] + [x] + s[Place(prio, s, prio(x))..]
  }

  lemma InsertedOrdered<T>(prio: Prio<T>, s: seq<T>, x: T)
    requires Ordered(prio, s)
    ensures Ordered(prio, Inserted(prio, s, x))
    ensures forall y | y in Inserted(prio, s, x) :: y == x || y in s
  {
  }

  /** The place is where the entries stop being no larger than `p`. */
  lemma PlaceIs<T>(prio: Prio<T>, s: seq<T>, p: int, k: nat)
    requires k <= |s| && (forall i | 0 <= i < k :: prio(s[i]) <= p) && (k < |s| ==> prio(s[k]) > p)
    ensures Place(prio, s, p) == k
  {
  }

  /** The end of a priority group is the place of that priority. */
  lemma GroupEnd<T>(prio: Prio<T>, s: seq<T>, p: int, k: nat)
    requires Ordered(prio, s) && 0 < k <= |s| && prio(s[k - 1]) == p && (k < |s| ==> prio(s[k]) != p)
    ensures Place(prio, s, p) == k
  {
    PlaceIs(prio, s, p, k);
  }

  /** An entry that is the last of its priority already stands where it would be inserted. */
  lemma InsertedBack<T>(prio: Prio<T>, s: seq<T>, i: nat)
    requires Ordered(prio, s) && i < |s|
    requires i + 1 < |s| ==> prio(s[i + 1]) != prio(s[i])
    ensures Inserted(prio, Without(s, i), s[i]) == s
  {
    var t := Without(s, i);
    assert i < |t| ==> t[i] == s[i + 1];
    PlaceIs(prio, t, prio(s[i]), i);
  }

  lemma WithoutOrdered<T>(prio: Prio<T>, s: seq<T>, i: nat)
    requires Ordered(prio, s) && i < |s|
    ensures Ordered(prio, Without(s, i))
  {
  }

  // ----- representatives

  /** `x` represents its priority unless the entry before it already has that priority. */
  function Rep<T>(prio: Prio<T>, last: Option<int>, x: T): seq<T> {
    if last == Some(prio(x)) then [] else [x]
  }

  /** The first entry of every priority group of `s`, after an entry of priority `last`. */
  function RepsAfter<T>(prio: Prio<T>, last: Option<int>, s: seq<T>): seq<T>
    decreases |s|
  {
    if s == [] then [] else Rep(prio, last, s[0]) + RepsAfter(prio, Some(prio(s[0])), s[1..])
  }

  function Reps<T>(prio: Prio<T>, s: seq<T>): seq<T> {
    RepsAfter(prio, None, s)
  }

  function LastPrio<T>(prio: Prio<T>, s: seq<T>): Option<int> {
    if s == [] then None else Some(prio(s[|s| - 1]))
  }

  lemma RepsCons<T>(prio: Prio<T>, last: Option<int>, x: T, s: seq<T>)
    ensures RepsAfter(prio, last, [x] + s) == Rep(prio, last, x) + RepsAfter(prio, Some(prio(x)), s)
  {
    assert ([x] + s)[1..] == s;
  }

  lemma {:induction false} RepsAppendAfter<T>(prio: Prio<T>, last: Option<int>, s: seq<T>, t: seq<T>)
    requires s != []
    ensures RepsAfter(prio, last, s + t) == RepsAfter(prio, last, s) + RepsAfter(prio, LastPrio(prio, s), t)
    decreases |s|
  {
    assert (s + t)[1..] == s[1..] + t;
    if |s| == 1 {
      assert s[1..] + t == t;
    } else {
      RepsAppendAfter(prio, Some(prio(s[0])), s[1..], t);
    }
  }

  lemma RepsAppend<T>(prio: Prio<T>, s: seq<T>, t: seq<T>)
    ensures Reps(prio, s + t) == Reps(prio, s) + RepsAfter(prio, LastPrio(prio, s), t)
  {
    if s == [] {
      assert s + t == t;
    } else {
      RepsAppendAfter(prio, None, s, t);
    }
  }

  /** The first entry of a new priority is a representative, whatever came before. */
  lemma RepsFresh<T>(prio: Prio<T>, last: Option<int>, last': Option<int>, s: seq<T>)
    requires s != [] ==> last != Some(prio(s[0])) && last' != Some(prio(s[0]))
    ensures RepsAfter(prio, last, s) == RepsAfter(prio, last', s)
    ensures s != [] ==> RepsAfter(prio, last, s) != [] && RepsAfter(prio, last, s)[0] == s[0]
  {
  }

  /** The last representative has the priority of the last entry. */
  lemma {:induction false} LastRep<T>(prio: Prio<T>, last: Option<int>, s: seq<T>)
    requires s != []
    ensures var r := RepsAfter(prio, last, s);
      if r == [] then last == Some(prio(s[|s| - 1])) else prio(r[|r| - 1]) == prio(s[|s| - 1])
    decreases |s|
  {
    if |s| > 1 {
      LastRep(prio, Some(prio(s[0])), s[1..]);
    }
  }

  lemma {:induction false} RepsWithin<T>(prio: Prio<T>, last: Option<int>, s: seq<T>)
    ensures S.Within(RepsAfter(prio, last, s), s)
    decreases |s|
  {
    if s != [] {
      RepsWithin(prio, Some(prio(s[0])), s[1..]);
      assert s == [s[0]] + s[1..];
    }
  }

  // ----- inserting and removing, with `a` the entries before `x` and `b` those after it

  /** The place of `x` in a sequence of entries no larger, then entries larger than `x`. */
  lemma InsertedParts<T>(prio: Prio<T>, a: seq<T>, x: T, b: seq<T>)
    requires forall i | 0 <= i < |a| :: prio(a[i]) <= prio(x)
    requires b != [] ==> prio(b[0]) > prio(x)
    ensures Reps(prio, a + b) == Reps(prio, a) + RepsAfter(prio, Some(prio(x)), b)
    ensures Reps(prio, a + ([x] + b)) ==
      Reps(prio, a) + (Rep(prio, LastPrio(prio, a), x) + RepsAfter(prio, Some(prio(x)), b))
  {
    RepsAppend(prio, a, b);
    RepsAppend(prio, a, [x] + b);
    RepsCons(prio, LastPrio(prio, a), x, b);
    RepsFresh(prio, LastPrio(prio, a), Some(prio(x)), b);
  }

  /** The scan of the representatives stops at the same entry as the scan of the whole list. */
  lemma PlaceOfRep<T>(prio: Prio<T>, a: seq<T>, p: int, b: seq<T>)
    requires forall i | 0 <= i < |a| :: prio(a[i]) <= p
    requires b != [] ==> prio(b[0]) > p
    ensures var r, g := Reps(prio, a + b), |Reps(prio, a)|;
      && g <= |r| && r[..g] == Reps(prio, a) && (g < |r| <==> b != []) && (b != [] ==> r[g] == b[0])
      && (g == 0 <==> a == []) && (a != [] ==> Some(prio(r[g - 1])) == LastPrio(prio, a))
  {
    RepsAppend(prio, a, b);
    RepsFresh(prio, LastPrio(prio, a), LastPrio(prio, a), b);
    if a != [] {
      LastRep(prio, None, a);
    }
  }

  /** If `x` goes, the next entry of its priority, if there is one, takes its place. */
  function Heir<T>(prio: Prio<T>, last: Option<int>, x: T, b: seq<T>): seq<T> {
    if last != Some(prio(x)) && b != [] && prio(b[0]) == prio(x) then [b[0]] else []
  }

  lemma HeirTakesOver<T>(prio: Prio<T>, last: Option<int>, x: T, b: seq<T>)
    requires last.Some? ==> last.value <= prio(x)
    requires b != [] ==> prio(x) <= prio(b[0])
    ensures RepsAfter(prio, last, b) == Heir(prio, last, x, b) + RepsAfter(prio, Some(prio(x)), b)
  {
    if b != [] {
      var t := RepsAfter(prio, Some(prio(b[0])), b[1..]);
      assert RepsAfter(prio, last, b) == Rep(prio, last, b[0]) + t;
      assert RepsAfter(prio, Some(prio(x)), b) == Rep(prio, Some(prio(x)), b[0]) + t;
      if prio(b[0]) == prio(x) {
        assert RepsAfter(prio, Some(prio(x)), b) == t;
      } else {
        assert RepsAfter(prio, last, b) == [b[0]] + t;
      }
    }
  }

  lemma WithoutParts<T>(prio: Prio<T>, a: seq<T>, x: T, b: seq<T>)
    requires a != [] ==> prio(a[|a| - 1]) <= prio(x)
    requires b != [] ==> prio(x) <= prio(b[0])
    ensures Reps(prio, a + ([x] + b)) ==
      Reps(prio, a) + (Rep(prio, LastPrio(prio, a), x) + RepsAfter(prio, Some(prio(x)), b))
    ensures Reps(prio, a + b) ==
      Reps(prio, a) + (Heir(prio, LastPrio(prio, a), x, b) + RepsAfter(prio, Some(prio(x)), b))
  {
    RepsAppend(prio, a, b);
    RepsAppend(prio, a, [x] + b);
    RepsCons(prio, LastPrio(prio, a), x, b);
    HeirTakesOver(prio, LastPrio(prio, a), x, b);
  }

  /** The representatives have strictly increasing priorities. */
  lemma {:induction false} RepsIncrease<T>(prio: Prio<T>, last: Option<int>, s: seq<T>)
    requires Ordered(prio, s)
    requires s != [] && last.Some? ==> last.value <= prio(s[0])
    ensures Increasing(prio, RepsAfter(prio, last, s))
    ensures last.Some? ==>
      forall i | 0 <= i < |RepsAfter(prio, last, s)| :: last.value < prio(RepsAfter(prio, last, s)[i])
    decreases |s|
  {
    if s != [] {
      assert |s| > 1 ==> s[1..][0] == s[1];
      RepsIncrease(prio, Some(prio(s[0])), s[1..]);
    }
  }

  ghost predicate Increasing<T>(prio: Prio<T>, s: seq<T>) {
    forall i, j | 0 <= i < j < |s| :: prio(s[i]) < prio(s[j])
  }

  /** The priorities in use. */
  ghost function Prios<T>(prio: Prio<T>, s: seq<T>): set<int> {
    set i | 0 <= i < |s| :: prio(s[i])
  }

  lemma {:induction false} IncreasingCount<T>(prio: Prio<T>, r: seq<T>)
    requires Increasing(prio, r)
    ensures |Prios(prio, r)| == |r|
    decreases |r|
  {
    if r != [] {
      var front, p := r[..|r| - 1], prio(r[|r| - 1]);
      IncreasingCount(prio, front);
      assert Prios(prio, r) == Prios(prio, front) + {p} by {
        assert forall i | 0 <= i < |front| :: prio(front[i]) == prio(r[i]);
      }
      assert p !in Prios(prio, front);
    }
  }

  ghost predicate HasPrio<T>(prio: Prio<T>, r: seq<T>, p: int) {
    exists j :: 0 <= j < |r| && prio(r[j]) == p
  }

  lemma HasPrioMore<T>(prio: Prio<T>, head: seq<T>, r: seq<T>, p: int)
    requires HasPrio(prio, r, p)
    ensures HasPrio(prio, head + r, p)
  {
    var j :| 0 <= j < |r| && prio(r[j]) == p;
    assert (head + r)[|head| + j] == r[j];
  }

  /** Every priority in use has a representative. */
  lemma {:induction false} RepsCover<T>(prio: Prio<T>, last: Option<int>, s: seq<T>, i: nat)
    requires i < |s|
    ensures last == Some(prio(s[i])) || HasPrio(prio, RepsAfter(prio, last, s), prio(s[i]))
    decreases |s|
  {
    var head, r := Rep(prio, last, s[0]), RepsAfter(prio, Some(prio(s[0])), s[1..]);
    if prio(s[i]) == prio(s[0]) {
      assert last != Some(prio(s[0])) ==> (head + r)[0] == s[0];
    } else {
      assert s[1..][i - 1] == s[i];
      RepsCover(prio, Some(prio(s[0])), s[1..], i - 1);
      HasPrioMore(prio, head, r, prio(s[i]));
    }
  }

  /** There are as many representatives as there are priorities in use. */
  lemma RepsCount<T>(prio: Prio<T>, s: seq<T>)
    requires Ordered(prio, s)
    ensures Increasing(prio, Reps(prio, s))
    ensures Prios(prio, Reps(prio, s)) == Prios(prio, s)
    ensures |Reps(prio, s)| == |Prios(prio, s)|
  {
    var r := Reps(prio, s);
    RepsIncrease(prio, None, s);
    IncreasingCount(prio, r);
    RepsWithin(prio, None, s);
    forall i | 0 <= i < |r| ensures prio(r[i]) in Prios(prio, s) {
      assert r[i] in s;
    }
    forall i | 0 <= i < |s| ensures prio(s[i]) in Prios(prio, r) {
      RepsCover(prio, None, s, i);
    }
  }

  // ----- what a search among the representatives finds

  /** `g` is where the representatives stop being no larger than `p`. */
  ghost predicate StopsAt<T>(prio: Prio<T>, r: seq<T>, p: int, g: nat) {
    && g <= |r|
    && (forall i | 0 <= i < g :: prio(r[i]) <= p)
    && (g < |r| ==> prio(r[g]) > p)
  }

  lemma StopIsPlace<T>(prio: Prio<T>, s: seq<T>, p: int, g: nat)
    requires StopsAt(prio, Reps(prio, s), p, g)
    ensures var k, r := Place(prio, s, p), Reps(prio, s);
      && g == |Reps(prio, s[..k])|
      && (if g < |r| then k < |s| && r[g] == s[k] else k == |s|)
      && (if g > 0 then LastPrio(prio, s[..k]) == Some(prio(r[g - 1])) else k == 0)
  {
    var k, r := Place(prio, s, p), Reps(prio, s);
    var a, b := s[..k], s[k..];
    var h := |Reps(prio, a)|;
    assert a + b == s;
    PlaceOfRep(prio, a, p, b);
    RepsWithin(prio, None, a);
    forall i | 0 <= i < h ensures prio(r[i]) <= p {
      assert r[i] == r[..h][i] && Reps(prio, a)[i] in Reps(prio, a);
    }
  }

  lemma SplitAt<T>(r: seq<T>, w: seq<T>, s: seq<T>, m: seq<T>, t: seq<T>)
    requires r == s + t && w == s + (m + t)
    ensures w == r[..|s|] + m + r[|s|..]
    ensures m == [] ==> w == r
  {
    assert r[..|s|] == s && r[|s|..] == t;
  }

  lemma PlaceParts<T>(prio: Prio<T>, s: seq<T>, x: T)
    ensures var k := Place(prio, s, prio(x));
      && s == s[..k] + s[k..] && Inserted(prio, s, x) == s[..k] + ([x] + s[k..])
      && (forall i | 0 <= i < k :: prio(s[..k][i]) <= prio(x))
      && (k < |s| ==> prio(s[k..][0]) > prio(x))
  {
    var k := Place(prio, s, prio(x));
    Halves(s, k, x);
    assert k < |s| ==> s[k..][0] == s[k];
  }

  lemma Halves<T>(s: seq<T>, k: nat, x: T)
    requires k <= |s|
    ensures s == s[..k] + s[k..] && s[..k] + [x] + s[k..] == s[..k] + ([x] + s[k..])
  {
  }

  /** Inserting adds a representative where the search stopped, or none. */
  lemma RepsInserted<T>(prio: Prio<T>, s: seq<T>, x: T, g: nat)
    requires StopsAt(prio, Reps(prio, s), prio(x), g)
    ensures var r := Reps(prio, s);
      Reps(prio, Inserted(prio, s, x)) ==
        if g > 0 && prio(r[g - 1]) == prio(x) then r else r[..g] + [x] + r[g..]
  {
    var k, r := Place(prio, s, prio(x)), Reps(prio, s);
    var a, b := s[..k], s[k..];
    StopIsPlace(prio, s, prio(x), g);
    PlaceParts(prio, s, x);
    InsertedParts(prio, a, x, b);
    SplitAt(r, Reps(prio, Inserted(prio, s, x)), Reps(prio, a),
            Rep(prio, LastPrio(prio, a), x), RepsAfter(prio, Some(prio(x)), b));
  }

  /** A priority that is in use needs no new representative. */
  lemma RepsInsertedAgain<T>(prio: Prio<T>, s: seq<T>, x: T)
    requires var k := Place(prio, s, prio(x)); k > 0 && prio(s[k - 1]) == prio(x)
    ensures Reps(prio, Inserted(prio, s, x)) == Reps(prio, s)
  {
    var k := Place(prio, s, prio(x));
    PlaceParts(prio, s, x);
    InsertedParts(prio, s[..k], x, s[k..]);
  }

  /** Entry `i` is the first one of its priority. */
  predicate IsRep<T>(prio: Prio<T>, s: seq<T>, i: nat)
    requires i < |s|
  {
    i > 0 ==> prio(s[i - 1]) != prio(s[i])
  }

  /** Two sequences that differ only between a common front and a common back. */
  lemma Middles<T>(r: seq<T>, w: seq<T>, s: seq<T>, m: seq<T>, n: seq<T>, t: seq<T>)
    requires r == s + (m + t) && w == s + (n + t) && |m| <= 1 && |n| <= 1
    ensures m == n ==> w == r
    ensures |m| == 1 ==> |s| < |r| && r[|s|] == m[0]
    ensures |m| == 1 && |n| == 1 ==> w == r[|s| := n[0]]
    ensures |m| == 1 && n == [] ==> w == Without(r, |s|)
  {
  }

  lemma EntryParts<T>(prio: Prio<T>, s: seq<T>, i: nat)
    requires Ordered(prio, s) && i < |s|
    ensures s == s[..i] + ([s[i]] + s[i + 1..]) && Without(s, i) == s[..i] + s[i + 1..]
    ensures i > 0 ==> prio(s[..i][i - 1]) <= prio(s[i])
    ensures i + 1 < |s| ==> prio(s[i]) <= prio(s[i + 1..][0])
    ensures IsRep(prio, s, i) <==> LastPrio(prio, s[..i]) != Some(prio(s[i]))
  {
  }

  /** Removing an entry removes its representative, unless there is an heir to take its place. */
  lemma RepsWithout<T>(prio: Prio<T>, s: seq<T>, i: nat)
    requires Ordered(prio, s) && i < |s|
    ensures var r, g := Reps(prio, s), |Reps(prio, s[..i])|;
      if !IsRep(prio, s, i) then Reps(prio, Without(s, i)) == r
      else
        && g < |r| && r[g] == s[i]
        && Reps(prio, Without(s, i)) ==
          if i + 1 < |s| && !IsRep(prio, s, i + 1) then r[g := s[i + 1]] else Without(r, g)
  {
    var a, x, b := s[..i], s[i], s[i + 1..];
    EntryParts(prio, s, i);
    WithoutParts(prio, a, x, b);
    var rep, heir := Rep(prio, LastPrio(prio, a), x), Heir(prio, LastPrio(prio, a), x, b);
    Middles(Reps(prio, s), Reps(prio, Without(s, i)), Reps(prio, a), rep, heir, RepsAfter(prio, Some(prio(x)), b));
  }

  /** The entry that stands for a priority group is among the representatives; the others are not. */
  lemma RepsAre<T>(prio: Prio<T>, s: seq<T>, i: nat)
    requires Ordered(prio, s) && i < |s|
    requires forall j, k | 0 <= j < k < |s| :: s[j] != s[k]
    ensures s[i] in Reps(prio, s) <==> IsRep(prio, s, i)
  {
    var a, x, b := s[..i], s[i], s[i + 1..];
    EntryParts(prio, s, i);
    WithoutParts(prio, a, x, b);
    RepsWithin(prio, None, a);
    RepsWithin(prio, Some(prio(x)), b);
    assert x !in a && x !in b;
    InTheMiddle(x, Reps(prio, a), Rep(prio, LastPrio(prio, a), x), RepsAfter(prio, Some(prio(x)), b));
  }

  lemma InTheMiddle<T>(x: T, head: seq<T>, mid: seq<T>, tail: seq<T>)
    requires x !in head && x !in tail
    ensures x in head + (mid + tail) <==> x in mid
  {
  }
}
