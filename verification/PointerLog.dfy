// The pointer log of the two-tier inbox as a set of pointers: which pointers survive
// eviction, and why the answer depends on nothing but the set.
//
// Survival is a rank condition. Adding pointers only tightens it, and removing a pointer
// that fails it changes it for nobody else; history independence follows from those two.
module PointerLog {
  import opened Basics

  const MAX_POINTERS: nat := 300
  const ANON_POINTER_SLOTS: nat := 100
  const MAX_PER_FINGERPRINT: nat := 8
  const MAX_PER_ANON_KEY: nat := 3

  // A fairness-cap group. Anonymous fingerprints are the strings that start with "anon:",
  // attested ones are all the others; the constructor is that prefix test.
  datatype Fingerprint = AnonFp(rest: string) | GhostFp(text: string)

  datatype ReplyPointer = ReplyPointer(
    owner: Key, replier: Key, fingerprint: Fingerprint,
    targetPost: PostId, replyPost: PostId, time: u64)

  datatype Pointer = Pointer(ptr: ReplyPointer, signature: Signature, powNonce: u64) {
    function SortKey(): OrderKey { OrderKey(ptr.time, ptr.replyPost) }

    predicate IsAnon() { ptr.fingerprint.AnonFp? }

    function Id(): PostId { ptr.replyPost }

    predicate NewerThan(p: Pointer) { p.SortKey().Lt(SortKey()) }
  }

  function FpCap(fp: Fingerprint): nat {
    if fp.AnonFp? then MAX_PER_ANON_KEY else MAX_PER_FINGERPRINT
  }

  // An id determines the whole pointer.
  ghost predicate UniqueIds(S: set<Pointer>) {
    forall p, q :: p in S && q in S && p.Id() == q.Id() ==> p == q
  }

  // ---- the survival condition ----

  ghost function GroupNewer(p: Pointer, S: set<Pointer>): set<Pointer> {
    set q | q in S && q.ptr.fingerprint == p.ptr.fingerprint && q.NewerThan(p)
  }

  ghost predicate InGroupCap(p: Pointer, S: set<Pointer>) {
    |GroupNewer(p, S)| < FpCap(p.ptr.fingerprint)
  }

  // What the per-fingerprint fairness cap leaves.
  ghost function Fair(S: set<Pointer>): set<Pointer> {
    set p | p in S && InGroupCap(p, S)
  }

  // The pointers of p's own tier that are newer than p.
  ghost function Above(p: Pointer, S: set<Pointer>): set<Pointer> {
    set q | q in S && q.IsAnon() == p.IsAnon() && q.NewerThan(p)
  }

  ghost function TierRank(p: Pointer, S: set<Pointer>): nat {
    |Fair(Above(p, S))|
  }

  function Attested(S: set<Pointer>): set<Pointer> {
    set p | p in S && !p.IsAnon()
  }

  function Anonymous(S: set<Pointer>): set<Pointer> {
    set p | p in S && p.IsAnon()
  }

  // What is left for anonymous pointers beside so many attested ones.
  function ShareBeside(attested: nat): nat {
    Min(ANON_POINTER_SLOTS, SaturatingSub(MAX_POINTERS, attested))
  }

  ghost function TierShare(p: Pointer, S: set<Pointer>): nat {
    if p.IsAnon() then ShareBeside(|Fair(Attested(S))|) else MAX_POINTERS
  }

  ghost predicate Survives(p: Pointer, S: set<Pointer>) {
    InGroupCap(p, S) && TierRank(p, S) < TierShare(p, S)
  }

  ghost function Evict(S: set<Pointer>): set<Pointer> {
    set p | p in S && Survives(p, S)
  }

  // ---- adding pointers only tightens the condition ----

  lemma GroupNewerMonotone(p: Pointer, S: set<Pointer>, T: set<Pointer>)
    requires S <= T
    ensures |GroupNewer(p, S)| <= |GroupNewer(p, T)|
  {
    SubsetCard(GroupNewer(p, S), GroupNewer(p, T));
  }

  // One insertion can push at most one older pointer over its group's cap, and only by
  // seating itself: the number of fairly seated pointers never drops.
  lemma FairCountInsert(S: set<Pointer>, q: Pointer)
    requires UniqueIds(S + {q}) && q !in S
    ensures |Fair(S)| <= |Fair(S + {q})|
  {
    var T := S + {q};
    var lost := Fair(S) - Fair(T);
    if lost == {} {
      SubsetCard(Fair(S), Fair(T));
    } else {
      var x :| x in lost;
      PushedOut(x, S, q);
      LostIsSingle(x, S, q);
      SubsetCard(Fair(S) - {x} + {q}, Fair(T));
    }
  }

  lemma LostIsSingle(x: Pointer, S: set<Pointer>, q: Pointer)
    requires UniqueIds(S + {q}) && q !in S && x in Fair(S) - Fair(S + {q})
    ensures Fair(S) - {x} <= Fair(S + {q})
  {
    forall y | y in Fair(S) && y != x ensures y in Fair(S + {q}) {
      if y !in Fair(S + {q}) {
        PushedOut(x, S, q);
        PushedOut(y, S, q);
        Comparable(x, y);
        if x.NewerThan(y) { OnlyOnePushedOut(y, x, S, q); } else { OnlyOnePushedOut(x, y, S, q); }
        assert false;
      }
    }
  }

  lemma Comparable(x: Pointer, y: Pointer)
    requires x.Id() != y.Id()
    ensures x.NewerThan(y) <==> !y.NewerThan(x)
  {}

  lemma PushedOut(x: Pointer, S: set<Pointer>, q: Pointer)
    requires q !in S && x in Fair(S) && x !in Fair(S + {q})
    ensures q in GroupNewer(x, S + {q}) && q in Fair(S + {q})
  {
    var T := S + {q};
    assert GroupNewer(x, T) != GroupNewer(x, S);
    assert GroupNewer(q, T) <= GroupNewer(x, S);
    SubsetCard(GroupNewer(q, T), GroupNewer(x, S));
  }

  lemma OnlyOnePushedOut(older: Pointer, newer: Pointer, S: set<Pointer>, q: Pointer)
    requires q !in S && older in S && newer in S && newer.NewerThan(older)
    requires q in GroupNewer(older, S + {q}) && q in GroupNewer(newer, S + {q})
    requires InGroupCap(older, S)
    ensures InGroupCap(newer, S + {q})
  {
    assert GroupNewer(newer, S + {q}) == GroupNewer(newer, S) + {q};
    assert newer in GroupNewer(older, S) && newer !in GroupNewer(newer, S);
    SubsetCard(GroupNewer(newer, S) + {newer}, GroupNewer(older, S));
  }

  lemma {:induction false} FairCountMonotone(S: set<Pointer>, T: set<Pointer>)
    requires S <= T && UniqueIds(T)
    ensures |Fair(S)| <= |Fair(T)|
    decreases T - S
  {
    if S != T {
      assert !(T <= S);
      var q :| q in T && q !in S;
      FairCountInsert(S, q);
      FairCountMonotone(S + {q}, T);
    }
  }

  // More pointers, harder survival.
  lemma SurvivalTightens(p: Pointer, S: set<Pointer>, T: set<Pointer>)
    requires S <= T && UniqueIds(T)
    requires Survives(p, T)
    ensures Survives(p, S)
  {
    GroupNewerMonotone(p, S, T);
    FairCountMonotone(Above(p, S), Above(p, T));
    FairCountMonotone(Attested(S), Attested(T));
  }

  // ---- removing a pointer that fails changes nothing for the others ----

  lemma FairWithout(S: set<Pointer>, q: Pointer)
    requires UniqueIds(S) && q in S && !InGroupCap(q, S)
    ensures Fair(S - {q}) == Fair(S)
  {
    forall x | x in S - {q} ensures InGroupCap(x, S) <==> InGroupCap(x, S - {q}) {
      OverCapElsewhere(x, S, q);
    }
  }

  lemma OverCapElsewhere(x: Pointer, S: set<Pointer>, q: Pointer)
    requires UniqueIds(S) && q in S && x != q && !InGroupCap(q, S)
    ensures InGroupCap(x, S) <==> InGroupCap(x, S - {q})
  {
    if q in GroupNewer(x, S) {
      assert GroupNewer(q, S) <= GroupNewer(x, S - {q});
      SubsetCard(GroupNewer(q, S), GroupNewer(x, S - {q}));
      GroupNewerMonotone(x, S - {q}, S);
    } else {
      assert GroupNewer(x, S) == GroupNewer(x, S - {q});
    }
  }

  lemma LoserLeavesOthers(p: Pointer, S: set<Pointer>, q: Pointer)
    requires UniqueIds(S + {p}) && q in S && p != q && !Survives(q, S)
    ensures Survives(p, S) <==> Survives(p, S - {q})
  {
    if !InGroupCap(q, S) {
      OverCapElsewhere(p, S, q);
      FairPartWithout(Above(p, S), Above(p, S - {q}), S, q);
      FairPartWithout(Attested(S), Attested(S - {q}), S, q);
    } else {
      OutrankedLeavesOthers(p, S, q);
    }
  }

  // A part of S that is closed under "newer in the same group".
  lemma FairPartWithout(part: set<Pointer>, rest: set<Pointer>, S: set<Pointer>, q: Pointer)
    requires UniqueIds(S) && part <= S && rest == part - {q} && q in S && !InGroupCap(q, S)
    requires q in part ==> GroupNewer(q, S) <= part
    ensures Fair(rest) == Fair(part)
  {
    if q in part {
      assert GroupNewer(q, part) == GroupNewer(q, S);
      FairWithout(part, q);
    } else {
      assert rest == part;
    }
  }

  lemma OutrankedLeavesOthers(p: Pointer, S: set<Pointer>, q: Pointer)
    requires UniqueIds(S + {p}) && q in S && p != q
    requires TierRank(q, S) >= TierShare(q, S)
    ensures Survives(p, S) <==> Survives(p, S - {q})
  {
    var T := S - {q};
    assert Above(q, T) == Above(q, S);
    if !q.IsAnon() {
      // the attested tier stays full without q
      FairCountMonotone(Above(q, T), Attested(T));
      FairCountMonotone(Attested(T), Attested(S));
    } else {
      assert Attested(T) == Attested(S);
    }
    assert TierShare(p, T) == TierShare(p, S);
    if q in Above(p, S) {
      FairCountMonotone(Above(q, T), Above(p, T));
      FairCountMonotone(Above(p, T), Above(p, S));
    } else {
      assert Above(p, S) == Above(p, T);
      assert GroupNewer(p, S) == GroupNewer(p, T);
    }
  }

  lemma {:induction false} LosersLeaveOthers(p: Pointer, S: set<Pointer>, losers: set<Pointer>)
    requires UniqueIds(S + {p}) && losers <= S && p !in losers
    requires forall q :: q in losers ==> !Survives(q, S)
    ensures Survives(p, S) <==> Survives(p, S - losers)
    decreases losers
  {
    if q :| q in losers {
      var rest := losers - {q};
      LoserLeavesOthers(p, S, q);
      forall x | x in rest ensures !Survives(x, S - {q}) {
        LoserLeavesOthers(x, S, q);
      }
      LosersLeaveOthers(p, S - {q}, rest);
      assert S - {q} - rest == S - losers;
    } else {
      assert S - losers == S;
    }
  }

  // Pointers that fail may be dropped, in any portion, without changing the outcome.
  lemma EvictWithoutLosers(S: set<Pointer>, losers: set<Pointer>)
    requires UniqueIds(S) && losers <= S
    requires forall q :: q in losers ==> !Survives(q, S)
    ensures Evict(S - losers) == Evict(S)
  {
    forall p | p in S - losers ensures Survives(p, S) <==> Survives(p, S - losers) {
      assert S + {p} == S;
      LosersLeaveOthers(p, S, losers);
    }
  }

  // History independence: evicting early loses nothing that a later eviction would keep.
  lemma EvictAbsorbs(X: set<Pointer>, Y: set<Pointer>)
    requires UniqueIds(X + Y)
    ensures Evict(Evict(X) + Y) == Evict(X + Y)
  {
    var losers := X - Evict(X) - Y;
    forall q | q in losers ensures !Survives(q, X + Y) {
      if Survives(q, X + Y) { SurvivalTightens(q, X, X + Y); }
    }
    EvictWithoutLosers(X + Y, losers);
    assert X + Y - losers == Evict(X) + Y;
  }

  // The survivors answer every survival question exactly as the whole history does.
  lemma SurvivorsDecide(p: Pointer, S: set<Pointer>)
    requires UniqueIds(S + {p})
    ensures Survives(p, Evict(S)) <==> Survives(p, S)
  {
    var losers := S - Evict(S) - {p};
    LosersLeaveOthers(p, S, losers);
    var rest := S - losers;
    if p in rest && p !in Evict(S) {
      assert rest == Evict(S) + {p};
      SelfIrrelevant(p, Evict(S));
    } else {
      assert rest == Evict(S);
    }
  }

  lemma SelfIrrelevant(p: Pointer, S: set<Pointer>)
    ensures Survives(p, S + {p}) <==> Survives(p, S)
  {
    assert GroupNewer(p, S + {p}) == GroupNewer(p, S);
    assert Above(p, S + {p}) == Above(p, S);
    if p.IsAnon() {
      assert Attested(S + {p}) == Attested(S);
    }
  }

  // ---- caps of the survivors ----

  lemma EvictIdempotent(S: set<Pointer>)
    requires UniqueIds(S)
    ensures Evict(Evict(S)) == Evict(S)
  {
    EvictAbsorbs(S, {});
    assert Evict(S) + {} == Evict(S) && S + {} == S;
  }

  // The attested survivors are what the attested pointers alone would leave.
  lemma AnonymousNeverCrowds(S: set<Pointer>)
    ensures Attested(Evict(S)) == Evict(Attested(S))
  {
    forall p | p in S && !p.IsAnon() ensures Survives(p, S) <==> Survives(p, Attested(S)) {
      assert GroupNewer(p, S) == GroupNewer(p, Attested(S));
      assert Above(p, S) == Above(p, Attested(S));
    }
  }
}
