/** The watch-subscription bitmap: an array of 64-bit words standing for a set of slots. */
module WatchBitmaps {
  const WORDS: nat := 1563
  const SLOTS: nat := WORDS * 64

  function Mask(bit: nat): bv64
    requires bit < 64
  {
    (1 as bv64) << (bit as bv6)
  }

  predicate Meets(w: bv64, mask: bv64) { w & mask != 0 }

  function Include(w: bv64, mask: bv64): bv64 { w | mask }

  function Exclude(w: bv64, mask: bv64): bv64 { w & !mask }

  predicate Bit(w: bv64, bit: nat)
    requires bit < 64
  {
    Meets(w, Mask(bit))
  }

  /** The slots below `n` whose bit is set. */
  ghost function Below(words: seq<bv64>, n: nat): set<nat>
    requires n <= 64 * |words|
  {
    set slot: nat | slot < n && Bit(words[slot / 64], slot % 64)
  }

  /** The set a word array stands for. */
  ghost function Slots(words: seq<bv64>): set<nat> { Below(words, 64 * |words|) }

  /** The population count of a word. */
  function Ones(w: bv64, bits: nat): nat
    requires bits <= 64
  {
    if bits == 0 then 0 else Ones(w, bits - 1) + if Bit(w, bits - 1) then 1 else 0
  }

  function CountOnes(w: bv64): nat { Ones(w, 64) }

  // ---------- single words ----------

  predicate Apart(a: bv64, b: bv64) { a & b == 0 }

  lemma IncludeMask(w: bv64, a: bv64, b: bv64)
    ensures Apart(a, b) ==> (Meets(Include(w, a), b) <==> Meets(w, b))
    ensures a != 0 ==> Meets(Include(w, a), a)
  {
    if Apart(a, b) { OrApart(w, a, b); }
    OrSame(w, a);
  }

  lemma OrApart(w: bv64, a: bv64, b: bv64)
    requires a & b == 0
    ensures (w | a) & b == w & b
  {}

  lemma OrSame(w: bv64, a: bv64)
    ensures (w | a) & a == a
  {}

  lemma ExcludeMask(w: bv64, a: bv64, b: bv64)
    ensures Apart(a, b) ==> (Meets(Exclude(w, a), b) <==> Meets(w, b))
    ensures !Meets(Exclude(w, a), a)
  {}

  lemma MasksApart(j: nat, k: nat)
    requires j < 64 && k < 64
    ensures j != k ==> Apart(Mask(j), Mask(k))
    ensures Mask(k) != 0
  {
    CastBack(j);
    CastBack(k);
    if j != k { ShiftsApart(j as bv6, k as bv6); }
  }

  lemma CastBack(k: nat)
    requires k < 64
    ensures (k as bv6) as int == k
  {}

  lemma ShiftsApart(a: bv6, b: bv6)
    requires a != b
    ensures Apart((1 as bv64) << a, (1 as bv64) << b)
  {}

  lemma ChangeBit(w: bv64, j: nat, k: nat)
    requires j < 64 && k < 64
    ensures Bit(Include(w, Mask(k)), j) <==> j == k || Bit(w, j)
    ensures Bit(Exclude(w, Mask(k)), j) <==> j != k && Bit(w, j)
  {
    hide Mask, Apart, Meets, Include, Exclude;
    MasksApart(k, j);
    IncludeMask(w, Mask(k), Mask(j));
    ExcludeMask(w, Mask(k), Mask(j));
  }

  lemma ZeroWord(k: nat)
    requires k < 64
    ensures !Bit(0, k)
  {
    hide Mask, Meets;
    ZeroMask(Mask(k));
  }

  lemma ZeroMask(a: bv64)
    ensures !Meets(0, a)
  {}

  // ---------- word arrays ----------

  /** Changing one bit of one word changes one slot. */
  lemma ChangeSlot(words: seq<bv64>, slot: nat, on: bool)
    requires slot < 64 * |words|
    ensures var w := words[slot / 64];
            var changed := words[slot / 64 := if on then Include(w, Mask(slot % 64)) else Exclude(w, Mask(slot % 64))];
            Slots(changed) == if on then Slots(words) + {slot} else Slots(words) - {slot}
  {
    hide Mask, Bit, Include, Exclude;
    var i, w := slot / 64, words[slot / 64];
    var changed := words[i := if on then Include(w, Mask(slot % 64)) else Exclude(w, Mask(slot % 64))];
    forall s: nat | s < 64 * |words|
      ensures Bit(changed[s / 64], s % 64) <==> if s == slot then on else Bit(words[s / 64], s % 64)
    {
      ChangeBit(w, s % 64, slot % 64);
    }
  }

  lemma BelowNext(words: seq<bv64>, n: nat)
    requires n < 64 * |words|
    ensures |Below(words, n + 1)| == |Below(words, n)| + if Bit(words[n / 64], n % 64) then 1 else 0
  {
    hide Bit;
    if Bit(words[n / 64], n % 64) {
      assert Below(words, n + 1) == Below(words, n) + {n};
    } else {
      assert Below(words, n + 1) == Below(words, n);
    }
  }

  /** Counting the bits of one more word counts the slots it stands for. */
  lemma {:induction false} WordCount(words: seq<bv64>, i: nat, bits: nat)
    requires i < |words| && bits <= 64
    ensures |Below(words, 64 * i + bits)| == |Below(words, 64 * i)| + Ones(words[i], bits)
    decreases bits
  {
    hide Bit, Below;
    if bits != 0 {
      WordCount(words, i, bits - 1);
      BelowNext(words, 64 * i + bits - 1);
    }
  }

  // ---------- the bitmap ----------

  class WatchBitmap {
    const words: array<bv64>

    ghost predicate Valid()
      reads this
    {
      words.Length == WORDS
    }

    ghost function Watched(): set<nat>
      reads this, words
    {
      Slots(words[..])
    }

    constructor ()
      ensures Valid() && fresh(words) && Watched() == {}
    {
      words := new bv64[WORDS](_ => 0);
      new;
      NothingSet(words[..]);
    }

    method IsWatched(slot: nat) returns (watched: bool)
      requires Valid()
      ensures watched <==> slot in Watched()
    {
      hide Mask, Meets;
      var word := slot / 64;
      if words.Length <= word { return false; }
      watched := Meets(words[word], Mask(slot % 64));
    }

    method SetWatched(slot: nat)
      requires Valid()
      modifies words
      ensures Watched() == if slot < SLOTS then old(Watched()) + {slot} else old(Watched())
    {
      hide Mask, Bit, Slots, Include, Exclude;
      var word := slot / 64;
      if word < words.Length {
        ChangeSlot(words[..], slot, true);
        ghost var before := words[..];
        words[word] := Include(words[word], Mask(slot % 64));
        assert words[..] == before[word := Include(before[word], Mask(slot % 64))];
      }
    }

    method ClearWatched(slot: nat)
      requires Valid()
      modifies words
      ensures Watched() == if slot < SLOTS then old(Watched()) - {slot} else old(Watched())
    {
      hide Mask, Bit, Slots, Include, Exclude;
      var word := slot / 64;
      if word < words.Length {
        ChangeSlot(words[..], slot, false);
        ghost var before := words[..];
        words[word] := Exclude(words[word], Mask(slot % 64));
        assert words[..] == before[word := Exclude(before[word], Mask(slot % 64))];
      }
    }

    method ClearAll()
      requires Valid()
      modifies words
      ensures Watched() == {}
    {
      for i := 0 to words.Length
        invariant forall j | 0 <= j < i :: words[j] == 0
      {
        words[i] := 0;
      }
      NothingSet(words[..]);
    }

    method SubscriptionCount() returns (count: nat)
      requires Valid()
      ensures count == |Watched()|
    {
      hide Bit, Ones, Below;
      count := 0;
      NoneBelow(words[..]);
      for i := 0 to words.Length
        invariant count == |Below(words[..], 64 * i)|
      {
        WordCount(words[..], i, 64);
        count := count + CountOnes(words[i]);
      }
    }
  }

  lemma NoneBelow(words: seq<bv64>)
    ensures Below(words, 0) == {}
  {}

  lemma NothingSet(words: seq<bv64>)
    requires forall i | 0 <= i < |words| :: words[i] == 0
    ensures Slots(words) == {}
  {
    hide Bit;
    forall k: nat | k < 64 ensures !Bit(0, k) { ZeroWord(k); }
  }

  // ---------- runs ----------

  datatype Op = Set(slot: nat) | Clear(slot: nat) | Reset

  function Step(watched: set<nat>, op: Op): set<nat> {
    match op
    case Set(slot) => if slot < SLOTS then watched + {slot} else watched
    case Clear(slot) => if slot < SLOTS then watched - {slot} else watched
    case Reset => {}
  }

  function Run(watched: set<nat>, ops: seq<Op>): set<nat> {
    if ops == [] then watched else Step(Run(watched, ops[..|ops| - 1]), ops[|ops| - 1])
  }

  /** Replaying any operation sequence on the words reaches the set of the abstract run. */
  method Replay(bitmap: WatchBitmap, ops: seq<Op>)
    requires bitmap.Valid()
    modifies bitmap.words
    ensures bitmap.Watched() == Run(old(bitmap.Watched()), ops)
  {
    hide Slots;
    ghost var start := bitmap.Watched();
    for i := 0 to |ops|
      invariant bitmap.Watched() == Run(start, ops[..i])
    {
      assert ops[..i + 1][..i] == ops[..i];
      match ops[i]
      case Set(slot) => bitmap.SetWatched(slot);
      case Clear(slot) => bitmap.ClearWatched(slot);
      case Reset => bitmap.ClearAll();
    }
    assert ops[..|ops|] == ops;
  }

  /** Operation `op` decides whether `slot` is watched. */
  predicate Touches(op: Op, slot: nat) { op.Reset? || op.slot == slot }

  /** A slot is watched exactly when the last operation that touched it set it. */
  lemma {:induction false} LastTouchDecides(ops: seq<Op>, slot: nat)
    ensures slot in Run({}, ops) <==>
            && slot < SLOTS
            && exists i | 0 <= i < |ops| :: ops[i] == Set(slot) && forall j | i < j < |ops| :: !Touches(ops[j], slot) || ops[j] == Set(slot)
  {
    if ops != [] {
      var n := |ops| - 1;
      var front := ops[..n];
      LastTouchDecides(front, slot);
      if ops[n] == Set(slot) {
      } else if !Touches(ops[n], slot) {
        if i :| 0 <= i < |front| && front[i] == Set(slot) && forall j | i < j < |front| :: !Touches(front[j], slot) || front[j] == Set(slot) {
          assert ops[i] == Set(slot);
          assert forall j | i < j < |ops| && j != n :: ops[j] == front[j];
        }
        if i :| 0 <= i < |ops| && ops[i] == Set(slot) && forall j | i < j < |ops| :: !Touches(ops[j], slot) || ops[j] == Set(slot) {
          assert front[i] == Set(slot);
          assert forall j | i < j < |front| :: front[j] == ops[j];
        }
      }
    }
  }
}
