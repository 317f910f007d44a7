// Shared vocabulary: fixed-width integers, order keys, and the few facts about
// finite sets and sorted sequences that every eviction proof needs.
module Basics {

  type u8 = x: int | 0 <= x < 0x100
  type u32 = x: int | 0 <= x < 0x1_0000_0000
  type u64 = x: int | 0 <= x < 0x1_0000_0000_0000_0000
  const U64_MAX: u64 := 0xFFFF_FFFF_FFFF_FFFF

  // Fixed-width byte strings (keys, ids, hashes), read as big-endian numbers:
  // Rust compares byte arrays lexicographically, which is the numeric order.
  type Key = nat
  type PostId = nat
  type Hash = nat
  type Signature = nat

  // UTF-8 text: every size limit counts bytes.
  type Text = seq<u8>

  // A Ghost Key attestation; the certificate chain inside is library code.
  datatype Attestation = Attestation(handle: nat)

  datatype Option<+T> = None | Some(value: T)

  datatype Result<+T> = Ok(value: T) | Err

  function Min(a: int, b: int): int { if a < b then a else b }

  function SaturatingSub(a: nat, b: nat): nat { if a < b then 0 else a - b }

  function SaturatingAdd(a: u64, b: u64): u64 {
    if a + b > U64_MAX then U64_MAX else a + b
  }

  // How far ahead of its own clock a shell lets a timestamp run, in milliseconds.
  const MAX_FUTURE_MS: u64 := 600_000

  // The (timestamp, tie-break) pairs that order eviction, compared lexicographically.
  datatype OrderKey = OrderKey(time: u64, tie: nat) {
    predicate Lt(other: OrderKey) {
      time < other.time || (time == other.time && tie < other.tie)
    }

    predicate Le(other: OrderKey) {
      this == other || Lt(other)
    }
  }

  // What a tier at its share still takes in.
  datatype TierHorizon = Open | OldestRetained(oldest: OrderKey) | Closed {
    predicate Admits(key: OrderKey) {
      match this
      case Open => true
      case OldestRetained(o) => o.Lt(key)
      case Closed => false
    }
  }

  function ToSet<T>(s: seq<T>): set<T> { set x | x in s }

  lemma ToSetSplit<T>(s: seq<T>, t: seq<T>)
    ensures ToSet(s + t) == ToSet(s) + ToSet(t)
  {}

  lemma EmptyToSet<T>(s: seq<T>)
    ensures ToSet(s) == {} <==> s == []
  {
    if s != [] { assert s[0] in ToSet(s); }
  }

  lemma ToSetSnoc<T>(s: seq<T>)
    requires s != []
    ensures s == s[..|s| - 1] + [s[|s| - 1]]
    ensures ToSet(s) == ToSet(s[..|s| - 1]) + {s[|s| - 1]}
  {
    assert s == s[..|s| - 1] + [s[|s| - 1]];
  }

  // The subsequence of s whose elements lie in keep (Rust's Vec::retain).
  function Restrict<T>(s: seq<T>, keep: set<T>): (r: seq<T>)
    ensures |r| <= |s|
    ensures ToSet(r) == ToSet(s) * keep
  {
    if s == [] then []
    else
      var n := |s| - 1;
      var front := Restrict(s[..n], keep);
      ToSetSnoc(s);
      assert s[n] in keep ==> ToSet(front + [s[n]]) == ToSet(front) + {s[n]};
      if s[n] in keep then front + [s[n]] else front
  }

  lemma RestrictSnoc<T>(s: seq<T>, keep: set<T>)
    requires s != []
    ensures var n := |s| - 1; Restrict(s, keep) == Restrict(s[..n], keep) + if s[n] in keep then [s[n]] else []
  {
    var front := Restrict(s[..|s| - 1], keep);
    assert front + [] == front;
  }

  lemma {:induction false} RestrictAll<T>(s: seq<T>, keep: set<T>)
    requires ToSet(s) <= keep
    ensures Restrict(s, keep) == s
  {
    if s != [] {
      var n := |s| - 1;
      assert s == s[..n] + [s[n]];
      assert s[n] in ToSet(s) && ToSet(s[..n]) <= ToSet(s);
      RestrictAll(s[..n], keep);
    }
  }

  lemma SubsetCard<T>(a: set<T>, b: set<T>)
    requires a <= b
    ensures |a| <= |b|
    ensures |a| == |b| ==> a == b
  {
    assert |b| == |a| + |b - a|;
    if |a| == |b| {
      assert b - a == {};
    }
  }

  // A part of v that contains everything above its members is decided by rank alone.
  lemma TopByRank<T>(v: set<T>, kept: set<T>, p: T, above: set<T>)
    requires kept <= v && p in v && above <= v
    requires p in kept ==> p !in above && above <= kept
    requires p !in kept ==> kept <= above
    ensures p in kept <==> |above| < |kept|
  {
    if p in kept {
      SubsetCard(above, kept - {p});
    } else {
      SubsetCard(kept, above);
    }
  }

  // Restricting depends only on which of the sequence's own elements are kept.
  lemma {:induction false} RestrictAgrees<T>(s: seq<T>, a: set<T>, b: set<T>)
    requires forall v :: v in s ==> (v in a <==> v in b)
    ensures Restrict(s, a) == Restrict(s, b)
  {
    if s != [] {
      ToSetSnoc(s);
      RestrictAgrees(s[..|s| - 1], a, b);
      assert s[|s| - 1] in ToSet(s);
    }
  }
}
