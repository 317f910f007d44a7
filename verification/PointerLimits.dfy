// Exactly how far the log's promises reach once reply-post ids are shared: when evicting
// early shows, when arrival order shows, and when an anonymous pointer reaches the attested
// tier.
module PointerLimits {
  import opened Basics
  import opened PointerLog
  import opened PointerVec
  import opened PointerSync

  lemma NewestSurvives(b: Pointer, S: set<Pointer>)
    requires !b.IsAnon() && forall q :: q in S ==> !q.NewerThan(b)
    ensures Survives(b, S)
  {
    assert GroupNewer(b, S) == {} && Above(b, S) == {};
    assert Fair({}) == {};
  }

  // An attested pointer that reuses the reply post of p and is newer than all of x. One may
  // well be honestly signed and on time: a reply post is chosen by its writer.
  ghost predicate Reuses(x: seq<Pointer>, p: Pointer, b: Pointer) {
    b.Id() == p.Id() && !b.IsAnon() && forall q :: q in x ==> q.ptr.time < b.ptr.time
  }

  // Once the representative p has been evicted such a pointer is seated; with p still present
  // it never is.
  lemma ReuseTellsThemApart(x: seq<Pointer>, p: Pointer, b: Pointer)
    requires p in Reduced(x) && p !in Canonical(x) && Reuses(x, p, b)
    ensures b in Canonical(Canonical(x) + [b]) && b !in Canonical(x + [b])
  {
    hide Evict, Canonical, StrictlyAscending, Reuses;
    ReuseLoses(x, p, b);
    ReuseWins(x, p, b);
  }

  lemma ReuseLoses(x: seq<Pointer>, p: Pointer, b: Pointer)
    requires p in x && Reuses(x, p, b)
    ensures b !in Canonical(x + [b])
  {
    hide Survives;
    CanonicalIs(x + [b]);
    assert b in Canonical(x + [b]) ==> b in ToSet(Canonical(x + [b]));
    WinnerOfAppend(x, [b], b.Id());
    assert p.Id() in Ids(x);
  }

  lemma ReuseWins(x: seq<Pointer>, p: Pointer, b: Pointer)
    requires p in Reduced(x) && p !in Canonical(x) && Reuses(x, p, b)
    ensures b in Canonical(Canonical(x) + [b])
  {
    hide Survives, Canonical, Evict;
    var s := Canonical(x) + [b];
    ReuseRepresents(x, p, b);
    forall q | q in Reduced(s) ensures !q.NewerThan(b) {
      if q in Canonical(x) { CanonicalSubset(x); assert q in ToSet(Canonical(x)) && q in x; }
    }
    NewestSurvives(b, Reduced(s));
    assert b in Evict(Reduced(s)) by { InEvict(b, Reduced(s)); }
    CanonicalIs(s);
    assert b in ToSet(Canonical(s));
  }

  lemma InEvict(p: Pointer, S: set<Pointer>)
    requires p in S && Survives(p, S)
    ensures p in Evict(S)
  {
    hide Survives;
  }

  lemma ReuseRepresents(x: seq<Pointer>, p: Pointer, b: Pointer)
    requires p in Reduced(x) && p !in Canonical(x) && Reuses(x, p, b)
    ensures b in Reduced(Canonical(x) + [b])
  {
    hide Survives, Canonical;
    var c := Canonical(x);
    CanonicalIs(x);
    RepresentativesAreReduced(x);
    EvictIsPart(Reduced(x));
    assert forall q :: q in c ==> q in ToSet(c);
    assert p.Id() !in Ids(c);
    WinnerOfAppend(c, [b], b.Id());
    assert WinnerOf([b], b.Id()) == Some(b);
  }

  lemma SameWinners(x: seq<Pointer>, c: seq<Pointer>, id: PostId)
    requires ToSet(c) == Reduced(x)
    ensures WinnerOf(c, id) == WinnerOf(x, id)
  {
    var a, b := WinnerOf(c, id), WinnerOf(x, id);
    assert forall q :: q in c <==> q in ToSet(c);
    if b.Some? { assert b.value in c && b.value.Id() in Ids(c); }
    if a.Some? { assert a.value in x && a.value.Id() in Ids(x); }
  }

  // Canonicalizing early is invisible to every continuation exactly when it evicted nothing,
  // whatever ids x and the continuation share. (With unique ids it is always invisible:
  // HistoryIndependence.)
  lemma EarlyEvictionVisible(x: seq<Pointer>)
    requires forall q :: q in x ==> q.ptr.time < U64_MAX
    ensures (forall y :: Canonical(Canonical(x) + y) == Canonical(x + y)) <==> Evict(Reduced(x)) == Reduced(x)
  {
    hide Evict, Canonical;
    CanonicalIs(x);
    if Evict(Reduced(x)) == Reduced(x) {
      forall y ensures Canonical(Canonical(x) + y) == Canonical(x + y) {
        NothingEvicted(x, y);
      }
    } else if p :| p in Reduced(x) && p !in ToSet(Canonical(x)) {
      // some pointer always reuses p's reply post; this one stands in for all of them
      var b := p.(ptr := p.ptr.(fingerprint := GhostFp(""), time := U64_MAX));
      ReuseTellsThemApart(x, p, b);
      assert Canonical(Canonical(x) + [b]) != Canonical(x + [b]);
    } else {
      EvictIsPart(Reduced(x));
    }
  }

  lemma EvictIsPart(S: set<Pointer>)
    ensures Evict(S) <= S
  {
    hide Survives;
  }

  lemma CanonicalSubset(x: seq<Pointer>)
    ensures ToSet(Canonical(x)) <= ToSet(x)
  {
    hide Survives;
    CanonicalIs(x);
  }

  lemma NothingEvicted(x: seq<Pointer>, y: seq<Pointer>)
    requires ToSet(Canonical(x)) == Reduced(x)
    ensures Canonical(Canonical(x) + y) == Canonical(x + y)
  {
    hide Evict, Canonical, StrictlyAscending;
    var c := Canonical(x);
    forall p ensures p in Reduced(c + y) <==> p in Reduced(x + y) {
      SameWinners(x, c, p.Id());
      WinnerOfAppend(c, y, p.Id());
      WinnerOfAppend(x, y, p.Id());
      assert p in c <==> p in ToSet(c);
      assert p in x <==> p in ToSet(x);
    }
    assert Reduced(c + y) == Reduced(x + y);
    CanonicalIs(c + y);
    CanonicalIs(x + y);
    SortedListUnique(Canonical(c + y), Canonical(x + y));
  }

  // ---- arrival order within one batch ----

  // No pointer shares the exact order key of a representative.
  ghost predicate LowestKeysUnique(x: seq<Pointer>) {
    forall p, q :: p in Reduced(x) && q in x && q.SortKey() == p.SortKey() ==> q == p
  }

  lemma WinnerIsSetMinimum(x: seq<Pointer>, y: seq<Pointer>, id: PostId)
    requires ToSet(y) == ToSet(x) && LowestKeysUnique(x)
    ensures WinnerOf(y, id) == WinnerOf(x, id)
  {
    assert forall q :: (q in x <==> q in ToSet(x)) && (q in y <==> q in ToSet(y));
    var a, b := WinnerOf(x, id), WinnerOf(y, id);
    if a.Some? { assert a.value in y && a.value.Id() in Ids(y) && a.value in Reduced(x); }
    if b.Some? { assert b.value in x && b.value.Id() in Ids(x); }
  }

  // The stable sort breaks exact ties by arrival: which pointers represent their reply
  // posts is a function of the set exactly when no representative is tied.
  lemma DedupOrderFree(x: seq<Pointer>)
    ensures (forall y :: ToSet(y) == ToSet(x) ==> Reduced(y) == Reduced(x)) <==> LowestKeysUnique(x)
  {
    hide Reduced;
    if LowestKeysUnique(x) {
      forall y | ToSet(y) == ToSet(x) ensures Reduced(y) == Reduced(x) {
        SameRepresentatives(x, y);
      }
    } else {
      var p, q :| p in Reduced(x) && q in x && q.SortKey() == p.SortKey() && q != p;
      TwinFirst(x, p, q);
    }
  }

  // With its twin in front of the list, p no longer represents their reply post.
  lemma TwinFirst(x: seq<Pointer>, p: Pointer, q: Pointer)
    requires p in Reduced(x) && q in x && q.SortKey() == p.SortKey() && q != p
    ensures ToSet([q] + x) == ToSet(x) && p !in Reduced([q] + x)
  {
    WinnerOfCons(q, x, p.Id());
    hide WinnerOf;
  }

  lemma SameRepresentatives(x: seq<Pointer>, y: seq<Pointer>)
    requires ToSet(y) == ToSet(x) && LowestKeysUnique(x)
    ensures Reduced(y) == Reduced(x)
  {
    forall p ensures p in Reduced(y) <==> p in Reduced(x) {
      WinnerIsSetMinimum(x, y, p.Id());
      assert (p in x <==> p in ToSet(x)) && (p in y <==> p in ToSet(y));
    }
  }

  // Without such ties one canonicalization is a function of the set, shared ids included.
  lemma SetDecides(x: seq<Pointer>, y: seq<Pointer>)
    requires ToSet(y) == ToSet(x) && LowestKeysUnique(x)
    ensures Canonical(y) == Canonical(x)
  {
    hide Evict, Canonical;
    SameRepresentatives(x, y);
    CanonicalIs(x);
    CanonicalIs(y);
    SortedListUnique(Canonical(x), Canonical(y));
  }

  // With a seated pointer in such a tie, say with its own copy under another proof-of-work
  // nonce, arrival order alone changes the vector.
  lemma SeatedTieShows(x: seq<Pointer>, p: Pointer, q: Pointer)
    requires p in Canonical(x) && q in x && q.SortKey() == p.SortKey() && q != p
    ensures ToSet([q] + x) == ToSet(x) && Canonical([q] + x) != Canonical(x)
  {
    hide Survives;
    CanonicalIs(x);
    CanonicalIs([q] + x);
    assert p in ToSet(Canonical(x)) && p in Reduced(x);
    TwinFirst(x, p, q);
    assert p in Canonical([q] + x) ==> p in ToSet(Canonical([q] + x));
  }

  ghost predicate Lowest(x: seq<Pointer>, p: Pointer) {
    p in x && forall r :: r in x && r.Id() == p.Id() ==> p.SortKey().Le(r.SortKey())
  }

  // p may represent its reply post, and so may another pointer of the very same key.
  ghost predicate Tied(x: seq<Pointer>, p: Pointer) {
    Lowest(x, p) && exists q :: q in x && q != p && q.SortKey() == p.SortKey()
  }

  // The representatives no order of arrival can change.
  ghost function Untied(x: seq<Pointer>): set<Pointer> {
    set p | p in x && Lowest(x, p) && !Tied(x, p)
  }

  lemma RepresentativesAreLowest(x: seq<Pointer>, y: seq<Pointer>)
    requires ToSet(y) == ToSet(x)
    ensures Untied(x) <= Reduced(y) && UniqueIds(Reduced(y))
    ensures forall p :: p in Reduced(y) ==> p in Untied(x) || Tied(x, p)
  {
    assert forall q :: (q in x <==> q in ToSet(x)) && (q in y <==> q in ToSet(y));
    forall p | p in Untied(x) ensures p in Reduced(y) {
      assert p.Id() in Ids(y);
      assert WinnerOf(y, p.Id()).value in x;
    }
    RepresentativesAreReduced(y);
  }

  // When no tied pointer survives beside the untied ones, only the untied ones matter.
  lemma TiedAlwaysLose(x: seq<Pointer>, y: seq<Pointer>)
    requires ToSet(y) == ToSet(x) && forall p :: Tied(x, p) ==> !Survives(p, Untied(x))
    ensures Evict(Reduced(y)) == Evict(Untied(x))
  {
    hide Survives, Tied, Lowest;
    RepresentativesAreLowest(x, y);
    var R, losers := Reduced(y), Reduced(y) - Untied(x);
    forall q | q in losers ensures !Survives(q, R) {
      if Survives(q, R) { SurvivalTightens(q, Untied(x), R); }
    }
    EvictWithoutLosers(R, losers);
    assert R - losers == Untied(x);
  }

  // If t survives beside U, then whatever R adds to U and t, something added survives.
  lemma NotAllLose(R: set<Pointer>, U: set<Pointer>, t: Pointer)
    requires UniqueIds(R) && U <= R && t in R - U && Survives(t, U)
    ensures exists q :: q in R - U && Survives(q, R)
  {
    hide Survives, UniqueIds;
    if forall q :: q in R - U ==> !Survives(q, R) {
      var losers := R - U - {t};
      assert R + {t} == R && R - losers == U + {t};
      LosersLeaveOthers(t, R, losers);
      SelfIrrelevant(t, U);
      assert false;
    }
  }

  lemma LeaderRepresents(x: seq<Pointer>, t: Pointer)
    requires Tied(x, t)
    ensures ToSet([t] + x) == ToSet(x) && t in Reduced([t] + x) && t !in Untied(x)
  {
    WinnerOfCons(t, x, t.Id());
  }

  // Otherwise some order seats a tied pointer, if not that one then one that displaced it.
  lemma SomeTiedSeated(x: seq<Pointer>, t: Pointer) returns (m: Pointer)
    requires Tied(x, t) && Survives(t, Untied(x))
    ensures Tied(x, m) && m in Canonical([t] + x) && ToSet([t] + x) == ToSet(x)
  {
    hide Survives, Tied, Lowest, Canonical, Reduced, Untied, UniqueIds;
    var y := [t] + x;
    LeaderRepresents(x, t);
    RepresentativesAreLowest(x, y);
    NotAllLose(Reduced(y), Untied(x), t);
    m :| m in Reduced(y) - Untied(x) && Survives(m, Reduced(y));
    InEvict(m, Reduced(y));
    CanonicalIs(y);
    assert m in ToSet(Canonical(y));
  }

  // One canonicalization is a function of the pointer set exactly when no tied pointer would
  // survive beside the untied representatives.
  lemma SetDecidesExactly(x: seq<Pointer>)
    ensures (forall y :: ToSet(y) == ToSet(x) ==> Canonical(y) == Canonical(x))
      <==> (forall p :: Tied(x, p) ==> !Survives(p, Untied(x)))
  {
    hide Survives, Canonical, Evict, Lowest, StrictlyAscending;
    if t :| Tied(x, t) && Survives(t, Untied(x)) {
      var m := SomeTiedSeated(x, t);
      var q :| q in x && q != m && q.SortKey() == m.SortKey();
      SeatedTieShows([t] + x, m, q);
      assert q in ToSet([t] + x) && ToSet([q] + ([t] + x)) == ToSet(x);
    } else {
      forall y | ToSet(y) == ToSet(x) ensures Canonical(y) == Canonical(x) {
        TiedAlwaysLose(x, x);
        TiedAlwaysLose(x, y);
        CanonicalIs(x);
        CanonicalIs(y);
        SortedListUnique(Canonical(x), Canonical(y));
      }
    }
  }

  // ---- when anonymous pointers reach the attested tier ----

  lemma RestrictWithin(s: seq<Pointer>, keep: set<Pointer>)
    ensures forall p :: p in Restrict(s, keep) ==> p in s
  {
    assert forall p :: p in Restrict(s, keep) ==> p in ToSet(Restrict(s, keep));
  }

  // A winner still wins among any of the list's pointers that include it.
  lemma {:induction false} WinnerInPart(s: seq<Pointer>, keep: set<Pointer>, p: Pointer)
    requires WinnerOf(s, p.Id()) == Some(p) && p in keep
    ensures WinnerOf(Restrict(s, keep), p.Id()) == Some(p)
  {
    hide Restrict;
    var n := |s| - 1;
    var front, id := s[..n], p.Id();
    assert s == front + [s[n]];
    WinnerOfAppend(front, [s[n]], id);
    RestrictSnoc(s, keep);
    RestrictWithin(front, keep);
    var part := Restrict(front, keep);
    WinnerOfAppend(part, if s[n] in keep then [s[n]] else [], id);
    if WinnerOf(front, id) == Some(p) {
      WinnerInPart(front, keep, p);
    } else if WinnerOf(part, id).Some? {
      assert WinnerOf(part, id).value in front && id in Ids(front);
    }
  }

  // The attested representatives of the attested pointers alone that an anonymous pointer
  // takes the reply post of.
  ghost function Displaced(x: seq<Pointer>): set<Pointer> {
    set a | a in Reduced(TierOf(x, false)) && WinnerOf(x, a.Id()) != Some(a)
  }

  lemma InTier(x: seq<Pointer>)
    ensures forall p :: p in TierOf(x, false) <==> p in x && !p.IsAnon()
  {
    assert forall p :: p in TierOf(x, false) <==> p in ToSet(TierOf(x, false));
    assert forall p :: p in x <==> p in ToSet(x);
  }

  lemma AttestedRepresentatives(x: seq<Pointer>)
    ensures Attested(Reduced(x)) == Reduced(TierOf(x, false)) - Displaced(x)
  {
    InTier(x);
    forall p | p in Reduced(x) && !p.IsAnon() ensures p in Reduced(TierOf(x, false)) {
      WinnerInPart(x, Attested(ToSet(x)), p);
    }
  }

  lemma TierOfCanonical(x: seq<Pointer>)
    ensures StrictlyAscending(TierOf(Canonical(x), false))
    ensures ToSet(TierOf(Canonical(x), false)) == Evict(Attested(Reduced(x)))
  {
    hide Canonical, Survives;
    var log := Canonical(x);
    CanonicalIs(x);
    AnonymousNeverCrowds(Reduced(x));
    RestrictStrict(log, Attested(ToSet(log)));
    assert ToSet(TierOf(log, false)) == Attested(ToSet(log));
  }

  // The attested part of a canonical log is what the attested pointers alone give exactly
  // when every attested pointer that loses its reply post to an anonymous one would have been
  // evicted anyway.
  lemma AttestedUntouchedExactly(x: seq<Pointer>)
    ensures TierOf(Canonical(x), false) == Canonical(TierOf(x, false))
      <==> forall a :: a in Displaced(x) ==> !Survives(a, Reduced(TierOf(x, false)))
  {
    hide Survives, Canonical, Displaced, StrictlyAscending, TierOf;
    var alone, lost := Reduced(TierOf(x, false)), Displaced(x);
    AttestedRepresentatives(x);
    TierOfCanonical(x);
    CanonicalIs(TierOf(x, false));
    RepresentativesAreReduced(TierOf(x, false));
    DisplacedIsPart(x);
    if forall a :: a in lost ==> !Survives(a, alone) {
      EvictWithoutLosers(alone, lost);
      SortedListUnique(TierOf(Canonical(x), false), Canonical(TierOf(x, false)));
    } else {
      var a :| a in lost && Survives(a, alone);
      assert a in Evict(alone) && a !in Evict(alone - lost);
    }
  }

  lemma DisplacedIsPart(x: seq<Pointer>)
    ensures Displaced(x) <= Reduced(TierOf(x, false))
  {
    hide Reduced;
  }

  // The smallest case: an anonymous pointer with an earlier time takes the reply post of an
  // attested one, and its place.
  lemma EarlierAnonymousDisplaces(a: Pointer, q: Pointer)
    requires !a.IsAnon() && q.IsAnon() && a.Id() == q.Id() && q.ptr.time < a.ptr.time
    ensures a in Canonical([a]) && a !in Canonical([a, q])
  {
    CanonicalIs([a]);
    CanonicalIs([a, q]);
    assert WinnerOf([q], a.Id()) == Some(q) && [a, q][1..] == [q];
    assert [a][1..] == [] && Reduced([a]) == {a};
    hide Canonical, Survives;
    NewestSurvives(a, {a});
    assert a in ToSet(Canonical([a]));
    assert a in Canonical([a, q]) ==> a in ToSet(Canonical([a, q]));
  }

  ghost function AttestedOnly(chunks: seq<seq<Pointer>>): seq<seq<Pointer>> {
    if chunks == [] then []
    else AttestedOnly(chunks[..|chunks| - 1]) + [TierOf(chunks[|chunks| - 1], false)]
  }

  // No anonymous pointer uses the reply post of an attested one. Nothing else is asked of the
  // ids: each tier may share its own.
  ghost predicate TiersApart(S: set<Pointer>) {
    forall a, q :: a in S && q in S && !a.IsAnon() && q.IsAnon() ==> a.Id() != q.Id()
  }

  lemma ApartDisplacesNone(x: seq<Pointer>)
    requires TiersApart(ToSet(x))
    ensures Displaced(x) == {}
  {
    InTier(x);
    forall a | a in Reduced(TierOf(x, false)) ensures WinnerOf(x, a.Id()) == Some(a) {
      assert a in x && a.Id() in Ids(x);
      var w := WinnerOf(x, a.Id()).value;
      assert a in ToSet(x) && w in ToSet(x);
      WinnerInPart(x, Attested(ToSet(x)), w);
    }
  }

  lemma TierOfAppend(s: seq<Pointer>, t: seq<Pointer>)
    ensures TierOf(s + t, false) == TierOf(s, false) + TierOf(t, false)
  {
    var both := Attested(ToSet(s + t));
    ToSetSplit(s, t);
    RestrictAppend(s, t, both);
    assert forall p :: (p in s ==> p in ToSet(s)) && (p in t ==> p in ToSet(t));
    RestrictAgrees(s, both, Attested(ToSet(s)));
    RestrictAgrees(t, both, Attested(ToSet(t)));
  }

  lemma {:induction false} RestrictAppend(s: seq<Pointer>, t: seq<Pointer>, keep: set<Pointer>)
    ensures Restrict(s + t, keep) == Restrict(s, keep) + Restrict(t, keep)
    decreases |t|
  {
    if t == [] {
      assert s + t == s;
    } else {
      var n := |t| - 1;
      assert (s + t)[..|s + t| - 1] == s + t[..n] && (s + t)[|s + t| - 1] == t[n];
      RestrictAppend(s, t[..n], keep);
    }
  }

  lemma {:induction false} RunWithin(chunks: seq<seq<Pointer>>)
    ensures ToSet(Run(chunks)) <= Received(chunks)
  {
    hide Canonical;
    if chunks != [] {
      var n := |chunks| - 1;
      ToSetSnoc(chunks);
      ReceivedSnoc(chunks[..n], chunks[n]);
      RunWithin(chunks[..n]);
      ToSetSplit(Run(chunks[..n]), chunks[n]);
      CanonicalSubset(Run(chunks[..n]) + chunks[n]);
    }
  }

  // Over any run in which no anonymous pointer uses an attested one's reply post, the
  // attested part of the log is the log of the run without its anonymous pointers.
  lemma {:induction false} AttestedTierIsolated(chunks: seq<seq<Pointer>>)
    requires TiersApart(Received(chunks))
    ensures TierOf(Run(chunks), false) == Run(AttestedOnly(chunks))
  {
    hide Canonical, TierOf;
    if chunks == [] {
      NothingIsAttested();
    } else {
      var n := |chunks| - 1;
      var before, last := Run(chunks[..n]), chunks[n];
      ToSetSnoc(chunks);
      ReceivedSnoc(chunks[..n], last);
      AttestedTierIsolated(chunks[..n]);
      RunWithin(chunks[..n]);
      ToSetSplit(before, last);
      ApartDisplacesNone(before + last);
      AttestedUntouchedExactly(before + last);
      TierOfAppend(before, last);
      RunSnoc(AttestedOnly(chunks[..n]), TierOf(last, false));
    }
  }

  lemma NothingIsAttested()
    ensures TierOf([], false) == []
  {}

  lemma RunSnoc(chunks: seq<seq<Pointer>>, c: seq<Pointer>)
    ensures Run(chunks + [c]) == Canonical(Run(chunks) + c)
  {
    hide Canonical;
    assert (chunks + [c])[..|chunks|] == chunks;
  }
}
