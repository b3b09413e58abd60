/** Canonical JSON text (section 3.2 of RFC 8785), to the extent the envelope and batch layers use it.

    Values are carried as their canonical bytes, one character per byte of the UTF-8 text, so lengths count bytes. Every
    text quoted here comes from an ASCII alphabet without quotes, backslashes or control characters, so quoting never
    escapes. Object members are listed in canonical key order. */
module CanonicalJson {
  import opened Outcomes
  import opened TextOrder

  /** An object member; an absent optional member is left out of the text. */
  datatype Field = Field(key: string, value: Option<string>)

  function Quoted(s: string): string { "\"" + s + "\"" }

  function Text(key: string, s: string): Field { Field(key, Some(Quoted(s))) }

  function Members(fs: seq<Field>): string {
    if fs == [] then ""
    else match fs[0].value
      case None => Members(fs[1..])
      case Some(v) =>
        var rest := Members(fs[1..]);
        Quoted(fs[0].key) + ":" + v + (if rest == "" then "" else "," + rest)
  }

  function Object(fs: seq<Field>): string { "{" + Members(fs) + "}" }

  function Joined(items: seq<string>): string {
    if items == [] then "" else if |items| == 1 then items[0] else items[0] + "," + Joined(items[1..])
  }

  function Array(items: seq<string>): string { "[" + Joined(items) + "]" }

  /** The members stand in canonical key order; on ASCII keys the order of section 3.2.3 of RFC 8785 is the byte order. */
  ghost predicate InKeyOrder(fs: seq<Field>) { forall i | 0 < i < |fs| :: Before(fs[i - 1].key, fs[i].key) }

  // ---------- lengths ----------

  /** The characters a member adds, its separating comma included. */
  function Breadth(f: Field): nat {
    match f.value
    case None => 0
    case Some(v) => |f.key| + |v| + 4
  }

  function Width(fs: seq<Field>): nat { if fs == [] then 0 else Breadth(fs[0]) + Width(fs[1..]) }

  lemma {:induction false} MembersWidth(fs: seq<Field>)
    ensures |Members(fs)| == if Width(fs) == 0 then 0 else Width(fs) - 1
    ensures Width(fs) != 1
  {
    if fs != [] { MembersWidth(fs[1..]); }
  }

  /** Lengthening one present member lengthens the object by the same amount. */
  lemma Stretch(fs: seq<Field>, k: nat, v: string)
    requires k < |fs| && fs[k].value.Some?
    ensures |Object(fs[k := Field(fs[k].key, Some(v))])| == |Object(fs)| - |fs[k].value.value| + |v|
  {
    var gs := fs[k := Field(fs[k].key, Some(v))];
    MembersWidth(fs);
    MembersWidth(gs);
    WidthAt(fs, k, gs[k]);
    WidthAt(fs, k, fs[k]);
    assert fs[k := fs[k]] == fs;
  }

  lemma {:induction false} WidthAt(fs: seq<Field>, k: nat, f: Field)
    requires k < |fs|
    ensures Width(fs[k := f]) == Width(fs) - Breadth(fs[k]) + Breadth(f)
    ensures Breadth(f) <= Width(fs[k := f])
  {
    var gs := fs[k := f];
    if k == 0 {
      assert gs[1..] == fs[1..];
    } else {
      WidthAt(fs[1..], k - 1, f);
      assert gs[1..] == fs[1..][k - 1 := f];
    }
  }

  /** `f` has the key of `g`, and a value no longer than the value of `g`. */
  predicate NoLonger(f: Field, g: Field) {
    f.key == g.key && (f.value.Some? ==> g.value.Some? && |f.value.value| <= |g.value.value|)
  }

  /** An object whose members are each no longer than those of another is no longer than it. */
  lemma ObjectNoLonger(fs: seq<Field>, gs: seq<Field>)
    requires |fs| == |gs| && forall i | 0 <= i < |fs| :: NoLonger(fs[i], gs[i])
    ensures |Object(fs)| <= |Object(gs)|
  {
    MembersWidth(fs);
    MembersWidth(gs);
    WidthNoLonger(fs, gs);
  }

  lemma {:induction false} WidthNoLonger(fs: seq<Field>, gs: seq<Field>)
    requires |fs| == |gs| && forall i | 0 <= i < |fs| :: NoLonger(fs[i], gs[i])
    ensures Width(fs) <= Width(gs)
  {
    if fs != [] {
      assert NoLonger(fs[0], gs[0]);
      WidthNoLonger(fs[1..], gs[1..]);
    }
  }

  /** An object of members of bounded breadth is bounded. */
  lemma ObjectBound(fs: seq<Field>, m: nat)
    requires forall i | 0 <= i < |fs| :: Breadth(fs[i]) <= m
    ensures |Object(fs)| <= |fs| * m + 2
  {
    MembersWidth(fs);
    WidthBound(fs, m);
  }

  lemma {:induction false} WidthBound(fs: seq<Field>, m: nat)
    requires forall i | 0 <= i < |fs| :: Breadth(fs[i]) <= m
    ensures Width(fs) <= |fs| * m
  {
    if fs != [] {
      WidthBound(fs[1..], m);
      assert |fs| * m == m + (|fs| - 1) * m;
    }
  }

  /** Joining two non-empty runs costs one more separator. */
  lemma {:induction false} JoinedSplit(a: seq<string>, b: seq<string>)
    requires a != [] && b != []
    ensures |Joined(a + b)| == |Joined(a)| + 1 + |Joined(b)|
  {
    assert (a + b)[0] == a[0];
    if |a| == 1 {
      assert (a + b)[1..] == b;
    } else {
      assert (a + b)[1..] == a[1..] + b;
      JoinedSplit(a[1..], b);
    }
  }

  /** A contiguous part of a list is no longer than the list. */
  lemma JoinedSlice(items: seq<string>, lo: nat, a: nat, b: nat, hi: nat)
    requires lo <= a <= b <= hi <= |items|
    ensures |Joined(items[a..b])| <= |Joined(items[lo..hi])|
  {
    JoinedGrows(items[a..b], items[b..hi]);
    assert items[a..b] + items[b..hi] == items[a..hi];
    JoinedShrinks(items[lo..a], items[a..hi]);
    assert items[lo..a] + items[a..hi] == items[lo..hi];
  }

  lemma JoinedGrows(a: seq<string>, b: seq<string>)
    ensures |Joined(a)| <= |Joined(a + b)|
  {
    if b == [] { assert a + b == a; } else if a != [] { JoinedSplit(a, b); }
  }

  lemma JoinedShrinks(a: seq<string>, b: seq<string>)
    ensures |Joined(b)| <= |Joined(a + b)|
  {
    if a == [] { assert a + b == b; } else if b != [] { JoinedSplit(a, b); }
  }
}
