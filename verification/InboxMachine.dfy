// The inbox state as the contract holds it: an object whose methods update it in place.
// Every method is proved against the value-level functions of Inbox and PointerVec.
module InboxMachine {
  import opened Basics
  import opened Pow
  import opened PointerLog
  import opened PointerVec
  import opened PointerSync
  import opened Inbox

  // ---- what each eviction pass leaves ----

  // The newest n anonymous pointers, and every attested one.
  ghost function KeepAnon(V: set<Pointer>, n: nat): set<Pointer> {
    set p | p in V && (p.IsAnon() ==> |Above(p, V)| < n)
  }

  // Anonymous pointers fill what the attested ones leave of n; attested ones fill n.
  ghost function KeepTotal(V: set<Pointer>, n: nat): set<Pointer> {
    set p | p in V && |Above(p, V)| < if p.IsAnon() then SaturatingSub(n, |Attested(V)|) else n
  }

  lemma KeepAnonWithin(V: set<Pointer>, n: nat)
    ensures V * KeepAnon(V, n) == KeepAnon(V, n)
  {}

  lemma AboveOfFair(p: Pointer, S: set<Pointer>)
    ensures Above(p, Fair(S)) == Fair(Above(p, S))
  {
    forall q | q in Above(p, S) ensures InGroupCap(q, S) <==> InGroupCap(q, Above(p, S)) {
      assert GroupNewer(q, S) == GroupNewer(q, Above(p, S));
    }
  }

  lemma AttestedOfFair(S: set<Pointer>)
    ensures Attested(Fair(S)) == Fair(Attested(S))
  {
    forall q | q in Attested(S) ensures InGroupCap(q, S) <==> InGroupCap(q, Attested(S)) {
      assert GroupNewer(q, S) == GroupNewer(q, Attested(S));
    }
  }

  lemma AboveOfAnonCap(p: Pointer, V: set<Pointer>, n: nat)
    requires p in KeepAnon(V, n)
    ensures Above(p, KeepAnon(V, n)) == Above(p, V)
  {
    forall q | q in Above(p, V) ensures q in KeepAnon(V, n) {
      SubsetCard(Above(q, V), Above(p, V));
    }
  }

  // The three passes in sequence are the survival condition.
  lemma PassesAreEviction(S: set<Pointer>)
    ensures KeepTotal(KeepAnon(Fair(S), ANON_POINTER_SLOTS), MAX_POINTERS) == Evict(S)
  {
    var F := Fair(S);
    var W := KeepAnon(F, ANON_POINTER_SLOTS);
    AttestedOfFair(S);
    assert Attested(W) == Attested(F);
    forall p | p in S ensures p in KeepTotal(W, MAX_POINTERS) <==> p in Evict(S) {
      AboveOfFair(p, S);
      if p in W { AboveOfAnonCap(p, F, ANON_POINTER_SLOTS); }
    }
  }

  lemma TailIsNewer(s: seq<Pointer>, i: nat)
    requires StrictlyAscending(s) && i < |s|
    ensures forall q :: q in s ==> (q in s[i + 1..] <==> q.NewerThan(s[i]))
  {
    forall q | q in s ensures q in s[i + 1..] <==> q.NewerThan(s[i]) {
      var j :| 0 <= j < |s| && s[j] == q;
      if j > i { assert s[i + 1..][j - i - 1] == q; }
      if q in s[i + 1..] {
        var k :| 0 <= k < |s[i + 1..]| && s[i + 1..][k] == q;
        assert s[i + 1 + k] == q;
      }
    }
  }

  function CountOf(counts: map<Fingerprint, nat>, fp: Fingerprint): nat {
    if fp in counts then counts[fp] else 0
  }

  lemma HeadAndTail(s: seq<Pointer>, i: nat)
    requires StrictlyAscending(s) && i < |s|
    ensures forall q :: q in s[i..] <==> q in s[i + 1..] || q == s[i]
    ensures s[i] !in s[i + 1..] && s[i] in s
    ensures forall q :: q in s[i + 1..] <==> q in s && q.NewerThan(s[i])
  {
    assert s[i..] == [s[i]] + s[i + 1..];
    TailIsNewer(s, i);
    assert forall q :: q in s[i + 1..] ==> q in s;
  }

  lemma GroupTail(s: seq<Pointer>, i: nat, fp: Fingerprint)
    requires StrictlyAscending(s) && i < |s|
    ensures |GroupSet(s[i..], fp)| == |GroupSet(s[i + 1..], fp)| + (if s[i].ptr.fingerprint == fp then 1 else 0)
    ensures s[i].ptr.fingerprint == fp ==> GroupNewer(s[i], ToSet(s)) == GroupSet(s[i + 1..], fp)
  {
    HeadAndTail(s, i);
    hide StrictlyAscending;
    assert GroupSet(s[i..], fp) == GroupSet(s[i + 1..], fp) + (if s[i].ptr.fingerprint == fp then {s[i]} else {});
  }

  lemma AnonTail(s: seq<Pointer>, i: nat)
    requires StrictlyAscending(s) && i < |s|
    ensures |Anonymous(ToSet(s[i..]))| == |Anonymous(ToSet(s[i + 1..]))| + (if s[i].IsAnon() then 1 else 0)
    ensures forall n: nat :: s[i] in KeepAnon(ToSet(s), n) <==> (s[i].IsAnon() ==> |Anonymous(ToSet(s[i + 1..]))| < n)
  {
    HeadAndTail(s, i);
    hide StrictlyAscending;
    assert Anonymous(ToSet(s[i..])) == Anonymous(ToSet(s[i + 1..])) + (if s[i].IsAnon() then {s[i]} else {});
    assert s[i].IsAnon() ==> Above(s[i], ToSet(s)) == Anonymous(ToSet(s[i + 1..]));
  }

  lemma PrefixGrows(s: seq<Pointer>, i: nat)
    requires i < |s|
    ensures s[..i + 1] == s[..i] + [s[i]]
    ensures ToSet(s[..i + 1]) == ToSet(s[..i]) + {s[i]}
  {
    assert s[..i + 1] == s[..i] + [s[i]];
  }

  // ---- the global cap, one victim at a time ----

  // The oldest anonymous pointer, or the oldest of all when none is anonymous.
  function VictimIndex(s: seq<Pointer>): (v: nat)
    requires s != []
    ensures v < |s|
    ensures s[v].IsAnon() ==> forall j :: 0 <= j < v ==> !s[j].IsAnon()
    ensures !s[v].IsAnon() ==> v == 0 && forall p :: p in s ==> !p.IsAnon()
  {
    if s[0].IsAnon() || |s| == 1 then 0
    else
      var v := VictimIndex(s[1..]);
      assert s == [s[0]] + s[1..];
      if s[1..][v].IsAnon() then v + 1 else 0
  }

  // What is left of V after removing some victims.
  ghost predicate Trimmed(V: set<Pointer>, C: set<Pointer>) {
    && C <= V
    && (forall p, q :: p in V - C && q in C && p.IsAnon() == q.IsAnon() ==> q.NewerThan(p))
    && (Attested(V) <= C || Anonymous(C) == {})
  }

  lemma TrimmedTier(V: set<Pointer>, C: set<Pointer>, p: Pointer)
    requires Trimmed(V, C) && p in V
    ensures p in C <==> |Above(p, V)| < |if p.IsAnon() then Anonymous(C) else Attested(C)|
  {
    if p.IsAnon() {
      TopByRank(Anonymous(V), Anonymous(C), p, Above(p, V));
    } else {
      TopByRank(Attested(V), Attested(C), p, Above(p, V));
    }
  }

  lemma TierSplit(V: set<Pointer>)
    ensures |Anonymous(V)| + |Attested(V)| == |V|
  {
    assert V == Anonymous(V) + Attested(V) && Anonymous(V) * Attested(V) == {};
  }

  lemma RankWithinTier(V: set<Pointer>, p: Pointer)
    requires p in V
    ensures |Above(p, V)| < |if p.IsAnon() then Anonymous(V) else Attested(V)|
  {
    var tier := if p.IsAnon() then Anonymous(V) else Attested(V);
    assert p in tier && p !in Above(p, V);
    SubsetCard(Above(p, V) + {p}, tier);
  }

  // Trimmed down to the cap exactly, or not at all when already within it.
  lemma TrimmedToCap(V: set<Pointer>, C: set<Pointer>)
    requires Trimmed(V, C) && |C| <= MAX_POINTERS && (C == V || |C| == MAX_POINTERS)
    ensures C == KeepTotal(V, MAX_POINTERS)
  {
    TierSplit(V);
    TierSplit(C);
    SubsetCard(Attested(C), Attested(V));
    if Attested(V) <= C { assert Attested(C) == Attested(V); }
    forall p | p in V ensures p in C <==> p in KeepTotal(V, MAX_POINTERS) {
      TrimmedTier(V, C, p);
      RankWithinTier(V, p);
    }
  }

  lemma RemoveVictim(V: set<Pointer>, s: seq<Pointer>)
    requires StrictlyAscending(s) && s != [] && Trimmed(V, ToSet(s))
    ensures Trimmed(V, ToSet(s) - {s[VictimIndex(s)]})
  {
    var v := VictimIndex(s);
    var C := ToSet(s) - {s[v]};
    assert forall q :: q in ToSet(s) <==> q in s;
    forall q | q in C && q.IsAnon() == s[v].IsAnon() ensures q.NewerThan(s[v]) {
      var j :| 0 <= j < |s| && s[j] == q;
      assert j > v;
    }
  }

  // ---- stepping through a delta's credentials and pointers ----

  function Part(m: map<Key, Cred>, keys: set<Key>): map<Key, Cred> { map k | k in m && k in keys :: m[k] }

  lemma MergedOneMore(x: Instance, held: map<Key, Cred>, incoming: map<Key, Cred>, done: set<Key>, k: Key)
    requires k in incoming && k !in done
    ensures var creds := MergedCreds(x, held, Part(incoming, done));
      && (Wins(x, creds, k, incoming[k]) <==> Wins(x, held, k, incoming[k]))
      && MergedCreds(x, held, Part(incoming, done + {k}))
        == (if Wins(x, held, k, incoming[k]) then creds[k := incoming[k]] else creds)
  {}

  lemma NoPointersNoFatal(x: Instance, creds: map<Key, Cred>, bits: nat)
    ensures !FatalPointer(x, creds, Admitted(x, [], bits))
  {}

  lemma RepliersStep(s: seq<Pointer>, i: nat)
    requires i < |s|
    ensures Repliers(s[..i + 1]) == Repliers(s[..i]) + {s[i].ptr.replier}
  {
    assert s[..i + 1] == s[..i] + [s[i]];
  }

  // ---- counting and checking a full state ----

  lemma GroupStep(s: seq<Pointer>, i: nat, fp: Fingerprint)
    requires i < |s|
    ensures Group(s[..i + 1], fp) == Group(s[..i], fp) + (if s[i].ptr.fingerprint == fp then [s[i]] else [])
  {
    var t := s[..i + 1];
    assert t == s[..i] + [s[i]] && t[..i] == s[..i];
    RestrictAgrees(s[..i], GroupSet(t, fp), GroupSet(s[..i], fp));
  }

  lemma {:induction false} GroupPrefix(s: seq<Pointer>, i: nat, fp: Fingerprint)
    requires i <= |s|
    ensures |Group(s[..i], fp)| <= |Group(s, fp)|
    decreases |s| - i
  {
    if i < |s| {
      GroupStep(s, i, fp);
      GroupPrefix(s, i + 1, fp);
    } else {
      assert s[..i] == s;
    }
  }

  lemma NoGroup(s: seq<Pointer>, fp: Fingerprint)
    requires fp !in Fingerprints(s)
    ensures Group(s, fp) == []
  {
    assert GroupSet(s, fp) == {};
    assert ToSet(Group(s, fp)) == {};
    EmptyToSet(Group(s, fp));
  }

  lemma {:induction false} SortedFromPairs(s: seq<Pointer>)
    requires forall i :: 0 < i < |s| ==> s[i - 1].SortKey().Le(s[i].SortKey())
    ensures Ascending(s)
  {
    if s != [] {
      var n := |s| - 1;
      SortedFromPairs(s[..n]);
      forall i, j | 0 <= i < j < |s| ensures s[i].SortKey().Le(s[j].SortKey()) {
        if j == n && i < n - 1 { assert s[..n][i].SortKey().Le(s[..n][n - 1].SortKey()); }
        else if j < n { assert s[..n][i].SortKey().Le(s[..n][j].SortKey()); }
      }
    }
  }

  function KeysOf(s: seq<Pointer>): seq<OrderKey> {
    if s == [] then [] else KeysOf(s[..|s| - 1]) + [s[|s| - 1].SortKey()]
  }

  // What p adds to the keys of a group.
  function KeyFor(p: Pointer, fp: Fingerprint): seq<OrderKey> {
    if p.ptr.fingerprint == fp then [p.SortKey()] else []
  }

  lemma KeysStep(s: seq<Pointer>, i: nat, fp: Fingerprint)
    requires i < |s|
    ensures KeysOf(Group(s[..i + 1], fp)) == KeysOf(Group(s[..i], fp)) + KeyFor(s[i], fp)
  {
    hide Group;
    GroupStep(s, i, fp);
    var g := Group(s[..i], fp);
    assert (g + [s[i]])[..|g|] == g && g + [] == g && KeysOf(g) + [] == KeysOf(g);
  }

  lemma NoKeys()
    ensures KeysOf([]) == [] && Fingerprints([]) == {}
  {}

  // The group table after one more pointer.
  lemma GroupsStep(s: seq<Pointer>, i: nat)
    requires i < |s|
    ensures Fingerprints(s[..i + 1]) == Fingerprints(s[..i]) + {s[i].ptr.fingerprint}
    ensures forall f :: KeysOf(Group(s[..i + 1], f)) == KeysOf(Group(s[..i], f)) + KeyFor(s[i], f)
    ensures s[i].ptr.fingerprint !in Fingerprints(s[..i]) ==> KeysOf(Group(s[..i], s[i].ptr.fingerprint)) == []
  {
    hide Group;
    PrefixGrows(s, i);
    forall f ensures KeysOf(Group(s[..i + 1], f)) == KeysOf(Group(s[..i], f)) + KeyFor(s[i], f) {
      KeysStep(s, i, f);
    }
    if s[i].ptr.fingerprint !in Fingerprints(s[..i]) { NoGroup(s[..i], s[i].ptr.fingerprint); }
  }

  function LeastOf(keys: seq<OrderKey>): (k: OrderKey)
    requires keys != []
  {
    var n := |keys| - 1;
    if n == 0 then keys[0]
    else
      var k := LeastOf(keys[..n]);
      if keys[n].Lt(k) then keys[n] else k
  }

  lemma {:induction false} LeastIsOldest(s: seq<Pointer>)
    requires s != []
    ensures |KeysOf(s)| == |s| && LeastOf(KeysOf(s)) == OldestKey(s)
  {
    var n := |s| - 1;
    if n > 0 {
      LeastIsOldest(s[..n]);
      assert KeysOf(s)[..n] == KeysOf(s[..n]);
    }
  }

  // counts holds, for every fingerprint, its pointers from i on, capped.
  ghost predicate Tallies(counts: map<Fingerprint, nat>, s: seq<Pointer>, i: nat)
    requires i <= |s|
  {
    forall fp :: CountOf(counts, fp) == Min(FpCap(fp), |GroupSet(s[i..], fp)|)
  }

  lemma TalliesStart(s: seq<Pointer>)
    ensures Tallies(map[], s, |s|)
  {
    assert forall fp :: GroupSet(s[|s|..], fp) == {};
  }

  // One pointer further down: its group's count goes up unless at the cap, and it is within
  // the cap exactly when the count was below.
  lemma TalliesStep(counts: map<Fingerprint, nat>, s: seq<Pointer>, i: nat)
    requires StrictlyAscending(s) && i < |s| && Tallies(counts, s, i + 1)
    ensures var fp := s[i].ptr.fingerprint; var c := CountOf(counts, fp);
      && (InGroupCap(s[i], ToSet(s)) <==> c < FpCap(fp))
      && Tallies(counts[fp := if c < FpCap(fp) then c + 1 else c], s, i)
  {
    var fp := s[i].ptr.fingerprint;
    GroupTail(s, i, fp);
    hide StrictlyAscending, GroupSet;
    var c := CountOf(counts, fp);
    forall f ensures CountOf(counts[fp := if c < FpCap(fp) then c + 1 else c], f)
      == Min(FpCap(f), |GroupSet(s[i..], f)|) {
      GroupTail(s, i, f);
    }
  }

  lemma FairNext(s: seq<Pointer>, i: nat)
    requires i < |s|
    ensures Restrict(s[..i + 1], Fair(ToSet(s)))
      == Restrict(s[..i], Fair(ToSet(s))) + if InGroupCap(s[i], ToSet(s)) then [s[i]] else []
  {
    var t := s[..i + 1];
    assert s[i] in ToSet(s) && t[..|t| - 1] == s[..i] && t[i] == s[i];
    RestrictSnoc(t, Fair(ToSet(s)));
  }

  lemma FairPartOf(S: set<Pointer>)
    ensures S * Fair(S) == Fair(S)
  {
    hide InGroupCap;
  }

  lemma SoundPointer(x: Instance, creds: map<Key, Cred>, p: Pointer)
    ensures PointerOk(x, creds, p)
      <==> x.CheckPointer(p, creds) == Ok(true) && (p.IsAnon() ==> x.Stamped(p, POW_FLOOR_BITS))
  {}

  class InboxV3 {
    var creds: map<Key, Cred>
    var pointers: seq<Pointer>
    var powDifficulty: Option<Cell>

    ghost function Value(): InboxState
      reads this
    {
      InboxState(creds, pointers, powDifficulty)
    }

    constructor (st: InboxState)
      ensures Value() == st
    {
      creds, pointers, powDifficulty := st.creds, st.pointers, st.powDifficulty;
    }

    // Sort, then keep the first pointer of each reply post.
    method SortAndDedup()
      modifies this`pointers
      ensures pointers == FirstPerId(SortByKey(old(pointers)))
    {
      hide FirstPerId, Ids;
      FirstPerIdStart();
      var s := SortByKey(pointers);
      var seen: set<PostId> := {};
      pointers := [];
      var i := 0;
      while i < |s|
        invariant 0 <= i <= |s|
        invariant pointers == FirstPerId(s[..i]) && seen == Ids(s[..i])
      {
        FirstPerIdStep(s, i);
        if s[i].Id() !in seen {
          seen := seen + {s[i].Id()};
          pointers := pointers + [s[i]];
        }
        i := i + 1;
      }
      assert s[..|s|] == s;
    }

    // Newest first, keep each fingerprint's pointers up to its cap.
    method CapFingerprints()
      requires StrictlyAscending(pointers)
      modifies this`pointers
      ensures StrictlyAscending(pointers) && ToSet(pointers) == Fair(ToSet(old(pointers)))
    {
      hide StrictlyAscending, InGroupCap, Restrict, Fair, Tallies;
      var s := pointers;
      var counts: map<Fingerprint, nat> := map[];
      var keep := seq(|s|, j => false);
      var i := |s|;
      TalliesStart(s);
      while i > 0
        invariant 0 <= i <= |s| == |keep|
        invariant Tallies(counts, s, i)
        invariant forall j :: i <= j < |s| ==> (keep[j] <==> InGroupCap(s[j], ToSet(s)))
      {
        i := i - 1;
        var fp := s[i].ptr.fingerprint;
        TalliesStep(counts, s, i);
        var c := CountOf(counts, fp);
        if c < FpCap(fp) {
          counts := counts[fp := c + 1];
          keep := keep[i := true];
        } else {
          counts := counts[fp := c];
          keep := keep[i := false];
        }
      }
      pointers := [];
      while i < |s|
        invariant 0 <= i <= |s| == |keep|
        invariant forall j :: 0 <= j < |s| ==> (keep[j] <==> InGroupCap(s[j], ToSet(s)))
        invariant pointers == Restrict(s[..i], Fair(ToSet(s)))
      {
        FairNext(s, i);
        if keep[i] { pointers := pointers + [s[i]]; }
        i := i + 1;
      }
      assert s[..|s|] == s;
      FairPartOf(ToSet(s));
      RestrictStrict(s, Fair(ToSet(s)));
    }

    // Drop the oldest anonymous pointers beyond the anonymous share.
    method CapAnonShare()
      requires StrictlyAscending(pointers)
      modifies this`pointers
      ensures StrictlyAscending(pointers) && ToSet(pointers) == KeepAnon(ToSet(old(pointers)), ANON_POINTER_SLOTS)
    {
      var s := pointers;
      hide KeepAnon, Anonymous, StrictlyAscending;
      var drop := SaturatingSub(|TierOf(s, true)|, ANON_POINTER_SLOTS);
      TierCards(s);
      pointers := [];
      var i := 0;
      while i < |s|
        invariant 0 <= i <= |s|
        invariant drop == SaturatingSub(|Anonymous(ToSet(s[i..]))|, ANON_POINTER_SLOTS)
        invariant pointers == Restrict(s[..i], KeepAnon(ToSet(s), ANON_POINTER_SLOTS))
      {
        PrefixGrows(s, i);
        AnonTail(s, i);
        assert s[i] in ToSet(s);
        if drop > 0 && s[i].IsAnon() {
          drop := drop - 1;
        } else {
          pointers := pointers + [s[i]];
        }
        i := i + 1;
      }
      assert s[..|s|] == s;
      KeepAnonWithin(ToSet(s), ANON_POINTER_SLOTS);
      RestrictStrict(s, KeepAnon(ToSet(s), ANON_POINTER_SLOTS));
    }

    // One victim at a time until the cap is met, anonymous pointers first.
    method CapTotal()
      requires StrictlyAscending(pointers)
      modifies this`pointers
      ensures StrictlyAscending(pointers) && ToSet(pointers) == KeepTotal(ToSet(old(pointers)), MAX_POINTERS)
    {
      ghost var V := ToSet(pointers);
      SetCard(pointers);
      while |pointers| > MAX_POINTERS
        invariant StrictlyAscending(pointers) && Trimmed(V, ToSet(pointers))
        invariant ToSet(pointers) == V || |pointers| >= MAX_POINTERS
        decreases |pointers|
      {
        var victim := VictimIndex(pointers);
        RemoveVictim(V, pointers);
        RemoveAt(pointers, victim);
        pointers := pointers[..victim] + pointers[victim + 1..];
      }
      SetCard(pointers);
      TrimmedToCap(V, ToSet(pointers));
    }

    // Sort, deduplicate, evict: exactly the survivors of the set of representatives.
    method Canonicalize()
      modifies this`pointers
      ensures pointers == Canonical(old(pointers))
    {
      ghost var s := pointers;
      SortAndDedup();
      FirstPerIdOrder(SortByKey(s));
      RepresentativesAreReduced(s);
      CapFingerprints();
      CapAnonShare();
      CapTotal();
      PassesAreEviction(Reduced(s));
      CanonicalIs(s);
      SortedListUnique(pointers, Canonical(s));
    }

    // Keep the pointers that match their credentials and fit the caps, and the credentials
    // those still need.
    method PostApplyCleanup(x: Instance)
      modifies this`pointers, this`creds
      ensures Value() == Cleanup(x, old(Value()))
    {
      hide Canonical;
      ghost var before := Value();
      var s := pointers;
      var i := 0;
      pointers := [];
      while i < |s|
        invariant 0 <= i <= |s|
        invariant creds == before.creds && powDifficulty == before.powDifficulty
        invariant pointers == Restrict(s[..i], Matched(x, before))
      {
        PrefixGrows(s, i);
        assert s[i] in s;
        if x.FpMatches(creds, s[i]) { pointers := pointers + [s[i]]; }
        i := i + 1;
      }
      assert s[..|s|] == s;
      Canonicalize();
      creds := Referenced(creds, pointers);
    }

    // Drop under-bar anonymous pointers; pointers of other inboxes stay in, to be fatal.
    method FilterAdmitted(x: Instance, ps: seq<Pointer>, bits: nat) returns (admitted: seq<Pointer>)
      ensures admitted == Admitted(x, ps, bits)
    {
      ghost var keep := Admissible(x, ps, bits);
      admitted := [];
      var i := 0;
      while i < |ps|
        invariant 0 <= i <= |ps|
        invariant admitted == Restrict(ps[..i], keep)
      {
        PrefixGrows(ps, i);
        assert ps[i] in ps;
        if !ps[i].IsAnon() || ps[i].ptr.owner != x.owner || x.Stamped(ps[i], bits) {
          admitted := admitted + [ps[i]];
        }
        i := i + 1;
      }
      assert ps[..|ps|] == ps;
    }

    // The keys of c vouched for by a validly signed staple; fails on a bad staple.
    method Stapled(x: Instance, c: map<Key, Cred>, admitted: seq<Pointer>) returns (ok: bool, stapled: set<Key>)
      ensures ok <==> !BadStaple(x, c, admitted)
      ensures ok ==> stapled == Repliers(admitted) * c.Keys
    {
      stapled := {};
      var i := 0;
      while i < |admitted|
        invariant 0 <= i <= |admitted|
        invariant !BadStaple(x, c, admitted[..i])
        invariant stapled == Repliers(admitted[..i]) * c.Keys
      {
        var p := admitted[i];
        RepliersStep(admitted, i);
        assert admitted[..i + 1] == admitted[..i] + [p] && p in admitted;
        if p.ptr.owner != x.owner { return false, stapled; }
        if p.ptr.replier in c {
          if !x.Signed(c[p.ptr.replier].postingKey, p) { return false, stapled; }
          stapled := stapled + {p.ptr.replier};
        }
        i := i + 1;
      }
      assert admitted[..|admitted|] == admitted;
      ok := true;
    }

    // Per key, the credential of greater hash wins; winners are checked, losers never.
    method ApplyCreds(x: Instance, incoming: map<Key, Cred>) returns (ok: bool)
      modifies this`creds
      ensures ok <==> WinnersOk(x, old(creds), incoming)
      ensures ok ==> creds == MergedCreds(x, old(creds), incoming)
    {
      ghost var held := creds;
      var todo := incoming.Keys;
      assert Part(incoming, incoming.Keys - todo) == map[];
      assert MergedCreds(x, held, map[]) == held;
      while todo != {}
        invariant todo <= incoming.Keys
        invariant creds == MergedCreds(x, held, Part(incoming, incoming.Keys - todo))
        invariant forall k :: k in incoming && k !in todo && Wins(x, held, k, incoming[k]) ==> x.CredOk(k, incoming[k])
        decreases todo
      {
        var k :| k in todo;
        MergedOneMore(x, held, incoming, incoming.Keys - todo, k);
        assert incoming.Keys - todo + {k} == incoming.Keys - (todo - {k});
        if Wins(x, creds, k, incoming[k]) {
          if !x.CredOk(k, incoming[k]) { return false; }
          creds := creds[k := incoming[k]];
        }
        todo := todo - {k};
      }
      assert Part(incoming, incoming.Keys - todo) == incoming;
      ok := true;
    }

    // Refuse the delta on a fatal pointer, drop unmatched ones, seat the rest.
    method ApplyPointers(x: Instance, admitted: seq<Pointer>) returns (ok: bool)
      modifies this`pointers
      ensures ok <==> !FatalPointer(x, creds, admitted)
      ensures ok ==> pointers == Canonical(old(pointers) + Accepted(x, creds, admitted))
    {
      hide Canonical;
      ghost var keep := Acceptable(x, creds, admitted);
      var accepted: seq<Pointer> := [];
      var i := 0;
      while i < |admitted|
        invariant 0 <= i <= |admitted|
        invariant pointers == old(pointers) && !FatalPointer(x, creds, admitted[..i])
        invariant accepted == Restrict(admitted[..i], keep)
      {
        PrefixGrows(admitted, i);
        assert admitted[i] in admitted;
        var check := x.CheckPointer(admitted[i], creds);
        if check.Err? { return false; }
        if check.value { accepted := accepted + [admitted[i]]; }
        i := i + 1;
      }
      assert admitted[..|admitted|] == admitted;
      pointers := pointers + accepted;
      Canonicalize();
      ok := true;
    }

    // One delta. On failure the object may be half updated; the caller discards it.
    method ApplyDelta(x: Instance, delta: Option<InboxDelta>) returns (ok: bool)
      modifies this
      ensures delta.None? ==> ok && Value() == old(Value())
      ensures delta.Some? ==> (ok <==> Apply(x, old(Value()), delta.value).Ok?)
      ensures delta.Some? && ok ==> Value() == Apply(x, old(Value()), delta.value).value
    {
      hide Canonical, BadStaple, FatalPointer, WinnersOk, Cleanup, Admitted, Accepted, MergedCreds;
      if delta.None? { return true; }
      var d := delta.value;
      ghost var st := Value();
      var changed;
      changed, powDifficulty := AdoptDifficulty(x.publisher, powDifficulty, d.powDifficulty);
      var bits := DifficultyBits(x.publisher, powDifficulty);
      var admitted := FilterAdmitted(x, if d.pointers.Some? then d.pointers.value else [], bits);
      assert admitted == AdmittedBy(x, st, d);
      var incoming: map<Key, Cred> := map[];
      if d.creds.Some? {
        if |d.creds.value| > MAX_POINTERS { return false; }
        var sound, stapled := Stapled(x, d.creds.value, admitted);
        if !sound { return false; }
        incoming := map k | k in d.creds.value && (k in stapled || k in Repliers(pointers)) :: d.creds.value[k];
      }
      assert incoming == VouchedBy(x, st, d);
      ok := ApplyCreds(x, incoming);
      if !ok { return; }
      assert creds == CredsAfter(x, st, d);
      if d.pointers.Some? {
        ok := ApplyPointers(x, admitted);
        if !ok { return; }
      } else {
        NoPointersNoFatal(x, creds, bits);
      }
      assert Value() == InboxState(CredsAfter(x, st, d), PointersAfter(x, st, d), PowAfter(x, st, d));
      PostApplyCleanup(x);
    }

    // Full-state merge: the other side's delta against our own summary.
    method MergeState(x: Instance, other: InboxState) returns (ok: bool)
      modifies this
      ensures ok <==> Merge(x, old(Value()), other).Ok?
      ensures ok ==> Value() == Merge(x, old(Value()), other).value
    {
      hide Apply;
      ok := ApplyDelta(x, Delta(x, other, Summary(x, InboxState(creds, pointers, powDifficulty))));
    }

    // Used by the shell alone, which knows the time.
    method ScrubFuture(now: u64)
      modifies this`pointers
      ensures Value() == Scrubbed(old(Value()), now)
    {
      ghost var before := Value();
      var s := pointers;
      var i := 0;
      pointers := [];
      while i < |s|
        invariant 0 <= i <= |s|
        invariant pointers == Restrict(s[..i], NotFuture(s, now))
      {
        PrefixGrows(s, i);
        assert s[i] in s;
        if s[i].ptr.time <= SaturatingAdd(now, MAX_FUTURE_MS) { pointers := pointers + [s[i]]; }
        i := i + 1;
      }
      assert s[..|s|] == s;
    }

    // The fairness caps, counted pointer by pointer.
    method CheckFairness() returns (ok: bool)
      ensures ok <==> forall fp :: fp in Fingerprints(pointers) ==> |Group(pointers, fp)| <= FpCap(fp)
    {
      hide Group;
      var s := pointers;
      var counts: map<Fingerprint, nat> := map[];
      var i := 0;
      forall fp ensures Group(s[..0], fp) == [] { NoGroup(s[..0], fp); }
      while i < |s|
        invariant 0 <= i <= |s|
        invariant forall fp :: |Group(s[..i], fp)| == CountOf(counts, fp)
        invariant forall fp :: |Group(s[..i], fp)| <= FpCap(fp)
      {
        var fp := s[i].ptr.fingerprint;
        ghost var before := counts;
        forall f ensures |Group(s[..i + 1], f)| == |Group(s[..i], f)| + (if fp == f then 1 else 0) {
          GroupStep(s, i, f);
        }
        counts := counts[fp := CountOf(counts, fp) + 1];
        assert forall f :: CountOf(counts, f) == CountOf(before, f) + (if fp == f then 1 else 0);
        if counts[fp] > FpCap(fp) {
          GroupPrefix(s, i + 1, fp);
          assert fp in Fingerprints(s);
          return false;
        }
        i := i + 1;
      }
      assert s[..|s|] == s;
      ok := true;
    }

    method CheckSorted() returns (ok: bool)
      ensures ok <==> Ascending(pointers)
    {
      var i := 1;
      while i < |pointers|
        invariant forall j :: 0 < j < |pointers| && j < i ==> pointers[j - 1].SortKey().Le(pointers[j].SortKey())
      {
        if pointers[i].SortKey().Lt(pointers[i - 1].SortKey()) { return false; }
        i := i + 1;
      }
      SortedFromPairs(pointers);
      ok := true;
    }

    // Every pointer matches its credential, clears the floor, and has its own reply post.
    method CheckEach(x: Instance) returns (ok: bool)
      ensures ok <==> DistinctIds(pointers) && forall p :: p in pointers ==> PointerOk(x, creds, p)
    {
      hide PointerOk;
      var seen: set<PostId> := {};
      var i := 0;
      while i < |pointers|
        invariant 0 <= i <= |pointers|
        invariant forall j :: 0 <= j < i ==> pointers[j].Id() in seen && PointerOk(x, creds, pointers[j])
        invariant forall id :: id in seen ==> exists j :: 0 <= j < i && pointers[j].Id() == id
        invariant forall j, k :: 0 <= j < k < i ==> pointers[j].Id() != pointers[k].Id()
      {
        var p := pointers[i];
        SoundPointer(x, creds, p);
        if x.CheckPointer(p, creds) != Ok(true) { return false; }
        if p.IsAnon() && !x.Stamped(p, POW_FLOOR_BITS) { return false; }
        if p.Id() in seen { return false; }
        seen := seen + {p.Id()};
        i := i + 1;
      }
      ok := true;
    }

    method CheckCreds(x: Instance) returns (ok: bool)
      ensures ok <==> creds.Keys <= Repliers(pointers) && CredsOk(x, creds)
    {
      var referenced := Repliers(pointers);
      var todo := creds.Keys;
      while todo != {}
        invariant todo <= creds.Keys
        invariant forall k :: k in creds && k !in todo ==> k in referenced && x.CredOk(k, creds[k])
        decreases todo
      {
        var k :| k in todo;
        if k !in referenced || !x.CredOk(k, creds[k]) { return false; }
        todo := todo - {k};
      }
      ok := true;
    }

    // Full-state validation.
    method Verify(x: Instance) returns (ok: bool)
      ensures ok <==> Verified(x, Value())
    {
      hide Group, Ascending, DistinctIds, CredsOk;
      if powDifficulty.Some? && !Genuine(x.publisher, powDifficulty.value) { return false; }
      if |creds| > MAX_POINTERS { return false; }
      ok := CheckCreds(x);
      if !ok { return; }
      if |pointers| > MAX_POINTERS || |TierOf(pointers, true)| > ANON_POINTER_SLOTS { return false; }
      ok := CheckFairness();
      if !ok { return; }
      ok := CheckSorted();
      if !ok { return; }
      ok := CheckEach(x);
    }

    // Group the order keys by fingerprint; report the oldest of every group at its cap.
    method FpHorizonTable() returns (horizons: map<Fingerprint, OrderKey>)
      ensures horizons == FpHorizons(pointers)
    {
      hide Group, LeastOf, OldestKey, KeysOf, Fingerprints;
      var s := pointers;
      var groups: map<Fingerprint, seq<OrderKey>> := map[];
      var i := 0;
      NoKeys();
      while i < |s|
        invariant 0 <= i <= |s|
        invariant groups.Keys == Fingerprints(s[..i])
        invariant forall fp :: fp in groups ==> groups[fp] == KeysOf(Group(s[..i], fp))
      {
        var fp := s[i].ptr.fingerprint;
        GroupsStep(s, i);
        groups := groups[fp := (if fp in groups then groups[fp] else []) + [s[i].SortKey()]];
        i := i + 1;
      }
      assert s[..|s|] == s;
      forall fp ensures |KeysOf(Group(s, fp))| == |Group(s, fp)|
          && (Group(s, fp) != [] ==> LeastOf(KeysOf(Group(s, fp))) == OldestKey(Group(s, fp))) {
        if Group(s, fp) != [] { LeastIsOldest(Group(s, fp)); } else { NoKeys(); }
      }
      horizons := map fp | fp in groups && |groups[fp]| >= FpCap(fp) :: LeastOf(groups[fp]);
    }
  }
}
