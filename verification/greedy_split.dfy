/** Splitting a list into consecutive parts of bounded joined length, where the fixed cost of a part depends only on its
    number. The fixed cost never falls as the number grows. */
module GreedySplit {
  import opened CanonicalJson

  /** The total length of part number `i` holding `items`. */
  function Size(base: nat -> nat, i: nat, items: seq<string>): nat { base(i) + |Joined(items)| }

  ghost predicate Monotone(base: nat -> nat) { forall i, j | i <= j :: base(i) <= base(j) }

  function Concat(parts: seq<seq<string>>): seq<string> { if parts == [] then [] else parts[0] + Concat(parts[1..]) }

  /** How many items the first `k` parts hold. */
  function Offset(parts: seq<seq<string>>, k: nat): nat
    requires k <= |parts|
  {
    if k == 0 then 0 else Offset(parts, k - 1) + |parts[k - 1]|
  }

  /** Parts numbered from one, each within the limit. */
  ghost predicate Admissible(base: nat -> nat, limit: nat, parts: seq<seq<string>>) {
    forall i | 0 <= i < |parts| :: Size(base, i + 1, parts[i]) <= limit
  }

  /** An admissible split of `items` into consecutive parts. */
  ghost predicate Splits(base: nat -> nat, limit: nat, items: seq<string>, parts: seq<seq<string>>) {
    Concat(parts) == items && Admissible(base, limit, parts)
  }

  lemma {:induction false} ConcatSnoc(parts: seq<seq<string>>, part: seq<string>)
    ensures Concat(parts + [part]) == Concat(parts) + part
  {
    if parts == [] {
      assert parts + [part] == [part] && [part][1..] == [];
    } else {
      ConcatSnoc(parts[1..], part);
      assert (parts + [part])[1..] == parts[1..] + [part];
    }
  }

  lemma {:induction false} ConcatLength(parts: seq<seq<string>>)
    ensures |Concat(parts)| == Offset(parts, |parts|)
  {
    if parts != [] {
      var front, last := parts[..|parts| - 1], parts[|parts| - 1];
      assert parts == front + [last];
      ConcatSnoc(front, last);
      ConcatLength(front);
      OffsetFront(front, last, |front|);
    }
  }

  lemma {:induction false} OffsetFront(front: seq<seq<string>>, last: seq<string>, k: nat)
    requires k <= |front|
    ensures Offset(front + [last], k) == Offset(front, k)
  {
    if k != 0 { OffsetFront(front, last, k - 1); }
  }

  lemma {:induction false} OffsetOrder(parts: seq<seq<string>>, j: nat, k: nat)
    requires j <= k <= |parts|
    ensures Offset(parts, j) <= Offset(parts, k)
    decreases k - j
  {
    if j < k { OffsetOrder(parts, j, k - 1); }
  }

  /** Part `k` is the stretch of the whole between its two offsets. */
  lemma {:induction false} PartAt(parts: seq<seq<string>>, k: nat)
    requires k < |parts|
    ensures Offset(parts, k + 1) <= |Concat(parts)|
    ensures parts[k] == Concat(parts)[Offset(parts, k)..Offset(parts, k + 1)]
    decreases |parts|
  {
    var front, last := parts[..|parts| - 1], parts[|parts| - 1];
    assert parts == front + [last];
    ConcatSnoc(front, last);
    ConcatLength(front);
    ConcatLength(parts);
    OffsetOrder(parts, k + 1, |parts|);
    OffsetFront(front, last, k);
    if k < |front| {
      PartAt(front, k);
      OffsetFront(front, last, k + 1);
    }
  }

  /** The parts a left-to-right greedy fill has closed: none is empty, and none had room for the item after it. */
  ghost predicate Greedy(base: nat -> nat, limit: nat, items: seq<string>, parts: seq<seq<string>>) {
    && Concat(parts) <= items
    && Admissible(base, limit, parts)
    && (forall i | 0 <= i < |parts| :: parts[i] != [])
    && (forall i | 0 <= i < |parts| :: Full(base, limit, items, parts, i))
  }

  ghost predicate Full(base: nat -> nat, limit: nat, items: seq<string>, parts: seq<seq<string>>, i: nat)
    requires i < |parts|
  {
    Offset(parts, i + 1) < |items| ==> limit < Size(base, i + 1, parts[i] + [items[Offset(parts, i + 1)]])
  }

  /** Closing one more full part keeps the fill greedy. */
  lemma CloseGreedy(base: nat -> nat, limit: nat, items: seq<string>, parts: seq<seq<string>>, part: seq<string>)
    requires Greedy(base, limit, items, parts) && part != [] && Concat(parts) + part <= items
    requires Size(base, |parts| + 1, part) <= limit
    requires var k := |Concat(parts)| + |part|; k < |items| ==> limit < Size(base, |parts| + 1, part + [items[k]])
    ensures Greedy(base, limit, items, parts + [part])
  {
    hide Size;
    var next := parts + [part];
    ConcatSnoc(parts, part);
    ConcatLength(parts);
    OffsetFront(parts, part, |parts|);
    assert Concat(next) == Concat(parts) + part;
    forall i | 0 <= i < |next| ensures Full(base, limit, items, next, i) {
      if i < |parts| {
        OffsetFront(parts, part, i + 1);
        assert Full(base, limit, items, parts, i);
      }
    }
  }

  /** No admissible split gets ahead of the greedy fill. */
  lemma {:induction false} StaysAhead(base: nat -> nat, limit: nat, items: seq<string>, greedy: seq<seq<string>>,
                                      other: seq<seq<string>>, k: nat)
    requires Greedy(base, limit, items, greedy) && Splits(base, limit, items, other)
    requires k <= |greedy| && k <= |other|
    ensures Offset(other, k) <= Offset(greedy, k)
    decreases k
  {
    hide Size, Joined;
    if 0 < k {
      StaysAhead(base, limit, items, greedy, other, k - 1);
      var a, b := Offset(greedy, k - 1), Offset(greedy, k);
      var c, d := Offset(other, k - 1), Offset(other, k);
      GreedyPart(base, limit, items, greedy, k - 1);
      PartAt(other, k - 1);
      OffsetOrder(other, k, |other|);
      if b < d { TooWide(base, limit, items, k, k, a, b, c, d); }
    }
  }

  /** A stretch that does not fit one part fits no wider stretch of that or a later part. */
  lemma TooWide(base: nat -> nat, limit: nat, items: seq<string>, i: nat, j: nat, a: nat, b: nat, c: nat, d: nat)
    requires c <= a <= b < d <= |items| && base(i) <= base(j) && limit < Size(base, i, items[a..b] + [items[b]])
    ensures limit < Size(base, j, items[c..d])
  {
    JoinedSlice(items, c, a, b + 1, d);
    assert items[a..b + 1] == items[a..b] + [items[b]];
  }

  lemma GreedyPart(base: nat -> nat, limit: nat, items: seq<string>, greedy: seq<seq<string>>, k: nat)
    requires Greedy(base, limit, items, greedy) && k < |greedy|
    ensures var a, b := Offset(greedy, k), Offset(greedy, k + 1);
            && a < b <= |items|
            && greedy[k] == items[a..b]
            && (b < |items| ==> limit < Size(base, k + 1, greedy[k] + [items[b]]))
  {
    hide Size;
    PartAt(greedy, k);
    assert Full(base, limit, items, greedy, k);
  }

  /** A greedy fill that used up every item has the fewest parts of all admissible splits. */
  lemma GreedyIsOptimal(base: nat -> nat, limit: nat, items: seq<string>, greedy: seq<seq<string>>, other: seq<seq<string>>)
    requires Greedy(base, limit, items, greedy) && Concat(greedy) == items && Splits(base, limit, items, other)
    ensures |greedy| <= |other|
  {
    hide Size, Joined, Concat;
    if |other| < |greedy| {
      var k := |other|;
      GreedyPart(base, limit, items, greedy, k);
      ConcatLength(other);
      StaysAhead(base, limit, items, greedy, other, k);
    }
  }

  /** When the greedy fill meets an item that does not fit a part of its own, no admissible split exists at all. */
  lemma StuckMeansImpossible(base: nat -> nat, limit: nat, items: seq<string>, greedy: seq<seq<string>>, other: seq<seq<string>>)
    requires Monotone(base) && Greedy(base, limit, items, greedy)
    requires var c := |Concat(greedy)|; c < |items| && limit < Size(base, |greedy| + 1, [items[c]])
    ensures !Splits(base, limit, items, other)
  {
    hide Size, Joined, Concat;
    if Splits(base, limit, items, other) {
      var m, c := |greedy|, |Concat(greedy)|;
      ConcatLength(greedy);
      ConcatLength(other);
      if |other| <= m {
        OffsetOrder(greedy, |other|, m);
        StaysAhead(base, limit, items, greedy, other, |other|);
      } else {
        StaysAhead(base, limit, items, greedy, other, m);
        var j := Holder(other, m, c);
        PartAt(other, j);
        assert items[c..c] + [items[c]] == [items[c]];
        TooWide(base, limit, items, m + 1, j + 1, c, c, Offset(other, j), Offset(other, j + 1));
      }
    }
  }

  /** The part, at or after number `m`, that holds item `c`. */
  ghost function Holder(parts: seq<seq<string>>, m: nat, c: nat): (j: nat)
    requires m <= |parts| && Offset(parts, m) <= c < Offset(parts, |parts|)
    ensures m <= j < |parts| && Offset(parts, j) <= c < Offset(parts, j + 1)
    decreases |parts| - m
  {
    if c < Offset(parts, m + 1) then m else Holder(parts, m + 1, c)
  }
}
