// Summaries of the pointer log and the deltas computed against them. A receiver's
// horizons turn out to be exactly its survival condition, which gives both losslessness
// and the absence of re-offer livelock.
module PointerSync {
  import opened Basics
  import opened PointerLog
  import opened PointerVec

  function TierOf(s: seq<Pointer>, anon: bool): seq<Pointer> {
    Restrict(s, if anon then Anonymous(ToSet(s)) else Attested(ToSet(s)))
  }

  function GroupSet(s: seq<Pointer>, fp: Fingerprint): set<Pointer> {
    set p | p in s && p.ptr.fingerprint == fp
  }

  function Group(s: seq<Pointer>, fp: Fingerprint): seq<Pointer> {
    Restrict(s, GroupSet(s, fp))
  }

  function Fingerprints(s: seq<Pointer>): set<Fingerprint> {
    set p | p in s :: p.ptr.fingerprint
  }

  function AttestedHorizon(s: seq<Pointer>): TierHorizon {
    var attested := TierOf(s, false);
    if |attested| >= MAX_POINTERS then OldestRetained(attested[0].SortKey()) else Open
  }

  function AnonHorizon(s: seq<Pointer>): TierHorizon {
    var anon := TierOf(s, true);
    var effective := ShareBeside(|TierOf(s, false)|);
    if effective == 0 then Closed
    else if |anon| >= effective then OldestRetained(anon[0].SortKey())
    else Open
  }

  function OldestKey(s: seq<Pointer>): (k: OrderKey)
    requires s != []
    ensures exists p :: p in s && p.SortKey() == k
    ensures forall p :: p in s ==> k.Le(p.SortKey())
  {
    var n := |s| - 1;
    ToSetSnoc(s);
    if n == 0 then
      assert s[0] in s;
      s[0].SortKey()
    else
      assert forall p :: p in s ==> p in ToSet(s);
      var k := OldestKey(s[..n]);
      var p :| p in s[..n] && p.SortKey() == k;
      assert p in s && s[n] in s;
      if s[n].SortKey().Lt(k) then s[n].SortKey() else k
  }

  // Groups with no room left, each with the key a newcomer has to beat.
  function FpHorizons(s: seq<Pointer>): map<Fingerprint, OrderKey> {
    map fp | fp in Fingerprints(s) && |Group(s, fp)| >= FpCap(fp) :: OldestKey(Group(s, fp))
  }

  datatype PointersSummary = PointersSummary(
    ids: set<PostId>,
    attestedHorizon: TierHorizon,
    anonHorizon: TierHorizon,
    fpHorizons: map<Fingerprint, OrderKey>)

  function Summarize(s: seq<Pointer>): PointersSummary {
    PointersSummary(Ids(s), AttestedHorizon(s), AnonHorizon(s), FpHorizons(s))
  }

  predicate Retains(sum: PointersSummary, p: Pointer) {
    && (if p.IsAnon() then sum.anonHorizon else sum.attestedHorizon).Admits(p.SortKey())
    && (p.ptr.fingerprint in sum.fpHorizons ==> sum.fpHorizons[p.ptr.fingerprint].Lt(p.SortKey()))
  }

  function Offered(s: seq<Pointer>, theirs: PointersSummary): seq<Pointer> {
    Restrict(s, set p | p in s && p.Id() !in theirs.ids && Retains(theirs, p))
  }

  // ---- horizons are survival conditions ----

  // In a full list, being below the oldest entry is the same as being outnumbered.
  lemma OldestDecides(g: seq<Pointer>, n: nat, p: Pointer, newer: set<Pointer>)
    requires StrictlyAscending(g) && 0 < n && |g| <= n
    requires forall q :: q in g ==> q.Id() != p.Id()
    requires newer == set q | q in g && q.NewerThan(p)
    ensures |newer| < n <==> (|g| < n || g[0].SortKey().Lt(p.SortKey()))
  {
    SetCard(g);
    SubsetCard(newer, ToSet(g));
    if |g| == n {
      Comparable(g[0], p);
      assert g[0] in ToSet(g);
      if !g[0].SortKey().Lt(p.SortKey()) {
        forall q | q in g ensures q in newer {
          var i :| 0 <= i < |g| && g[i] == q;
          assert i > 0 ==> g[0].SortKey().Lt(g[i].SortKey());
        }
        assert newer == ToSet(g);
      }
    }
  }

  // A list whose oldest entry is outnumbered by fewer than n holds at most n.
  lemma OldestWithin(g: seq<Pointer>, n: nat, newer: set<Pointer>)
    requires StrictlyAscending(g) && g != []
    requires forall q :: q in g && q.NewerThan(g[0]) ==> q in newer
    requires |newer| < n
    ensures |g| <= n
  {
    SetCard(g);
    forall q | q in g && q != g[0] ensures q in newer {
      var i :| 0 <= i < |g| && g[i] == q;
    }
    SubsetCard(ToSet(g) - {g[0]}, newer);
    assert g[0] in ToSet(g);
  }

  lemma FairPart(R: set<Pointer>, part: set<Pointer>)
    requires Evict(R) == R && part <= R
    ensures Fair(part) == part
  {
    forall x | x in part ensures InGroupCap(x, part) {
      assert x in Evict(R);
      GroupNewerMonotone(x, part, R);
    }
  }

  ghost predicate Seated(r: seq<Pointer>) {
    StrictlyAscending(r) && UniqueIds(ToSet(r)) && Evict(ToSet(r)) == ToSet(r)
  }

  lemma FpHorizonIsGroupCap(r: seq<Pointer>, p: Pointer)
    requires Seated(r) && UniqueIds(ToSet(r) + {p}) && p !in r
    ensures InGroupCap(p, ToSet(r)) <==>
      var h := FpHorizons(r); (p.ptr.fingerprint in h ==> h[p.ptr.fingerprint].Lt(p.SortKey()))
  {
    var fp := p.ptr.fingerprint;
    var g := Group(r, fp);
    RestrictStrict(r, GroupSet(r, fp));
    assert forall q :: q in g <==> q in ToSet(g);
    assert ToSet(g) == GroupSet(r, fp);
    assert fp in Fingerprints(r) ==> GroupSet(r, fp) != {} by {
      if q :| q in r && q.ptr.fingerprint == fp { assert q in GroupSet(r, fp); }
    }
    if g != [] {
      assert g[0] in g && g[0] in Evict(ToSet(r));
      OldestWithin(g, FpCap(fp), GroupNewer(g[0], ToSet(r)));
      OldestKeyIsFirst(g);
      assert fp in Fingerprints(r);
    }
    OldestDecides(g, FpCap(fp), p, GroupNewer(p, ToSet(r)));
  }

  lemma OldestKeyIsFirst(g: seq<Pointer>)
    requires StrictlyAscending(g) && g != []
    ensures OldestKey(g) == g[0].SortKey()
  {
    var k := OldestKey(g);
    var p :| p in g && p.SortKey() == k;
    var i :| 0 <= i < |g| && g[i] == p;
    assert g[0] in g;
    assert i > 0 ==> g[0].SortKey().Lt(g[i].SortKey());
  }

  // A seated log's tiers, as lists: sorted, within their share, and fair throughout.
  lemma TierList(r: seq<Pointer>, anon: bool)
    requires Seated(r)
    ensures StrictlyAscending(TierOf(r, anon))
    ensures forall q :: q in TierOf(r, anon) <==> q in r && q.IsAnon() == anon
    ensures |TierOf(r, anon)| == |if anon then Anonymous(ToSet(r)) else Attested(ToSet(r))|
  {
    var tier := TierOf(r, anon);
    RestrictStrict(r, if anon then Anonymous(ToSet(r)) else Attested(ToSet(r)));
    SetCard(tier);
    assert forall q :: q in tier <==> q in ToSet(tier);
    assert ToSet(tier) == if anon then Anonymous(ToSet(r)) else Attested(ToSet(r));
  }

  lemma TierWithinShare(r: seq<Pointer>, anon: bool)
    requires Seated(r) && TierOf(r, anon) != []
    ensures |TierOf(r, anon)| <= TierShare(TierOf(r, anon)[0], ToSet(r))
  {
    TierList(r, anon);
    var tier := TierOf(r, anon);
    assert tier[0] in tier && tier[0] in Evict(ToSet(r));
    FairPart(ToSet(r), Above(tier[0], ToSet(r)));
    OldestWithin(tier, TierShare(tier[0], ToSet(r)), Above(tier[0], ToSet(r)));
  }

  function TierLimit(r: seq<Pointer>, anon: bool): nat {
    if anon then ShareBeside(|TierOf(r, false)|) else MAX_POINTERS
  }

  // Both tiers' horizons have one form.
  lemma HorizonForm(r: seq<Pointer>, anon: bool, key: OrderKey)
    ensures var tier, limit := TierOf(r, anon), TierLimit(r, anon);
      (if anon then AnonHorizon(r) else AttestedHorizon(r)).Admits(key) <==>
      limit > 0 && (|tier| < limit || tier[0].SortKey().Lt(key))
  {
    hide TierOf;
  }

  lemma LimitIsShare(r: seq<Pointer>, p: Pointer)
    requires Seated(r)
    ensures TierShare(p, ToSet(r)) == TierLimit(r, p.IsAnon())
  {
    hide StrictlyAscending, UniqueIds;
    TierList(r, false);
    FairPart(ToSet(r), Attested(ToSet(r)));
  }

  lemma TierHorizonIsRank(r: seq<Pointer>, p: Pointer)
    requires Seated(r) && UniqueIds(ToSet(r) + {p}) && p !in r
    ensures TierRank(p, ToSet(r)) < TierShare(p, ToSet(r)) <==>
      (if p.IsAnon() then AnonHorizon(r) else AttestedHorizon(r)).Admits(p.SortKey())
  {
    var R := ToSet(r);
    var tier, share := TierOf(r, p.IsAnon()), TierShare(p, R);
    LimitIsShare(r, p);
    HorizonForm(r, p.IsAnon(), p.SortKey());
    TierList(r, p.IsAnon());
    FairPart(R, Above(p, R));
    hide TierOf, TierLimit, AnonHorizon, AttestedHorizon, Fair, Evict;
    if tier != [] {
      TierWithinShare(r, p.IsAnon());
      assert tier[0] in tier;
      LimitIsShare(r, tier[0]);
    }
    if share > 0 {
      OldestDecides(tier, share, p, Above(p, R));
    }
  }

  // What a receiver's horizons admit is exactly what would survive in its log.
  lemma HorizonsAreSurvival(r: seq<Pointer>, p: Pointer)
    requires Seated(r) && UniqueIds(ToSet(r) + {p}) && p !in r
    ensures Retains(Summarize(r), p) <==> Survives(p, ToSet(r))
  {
    FpHorizonIsGroupCap(r, p);
    TierHorizonIsRank(r, p);
  }

  lemma IdHeld(r: seq<Pointer>, p: Pointer)
    requires UniqueIds(ToSet(r) + {p})
    ensures p.Id() in Ids(r) <==> p in r
  {
    if p.Id() in Ids(r) {
      var q :| q in r && q.Id() == p.Id();
      assert q in ToSet(r);
    }
  }

  // Nothing withheld would have survived.
  lemma OfferLosesNothing(r: seq<Pointer>, s: seq<Pointer>)
    requires Seated(r) && UniqueIds(ToSet(r) + ToSet(s))
    ensures Evict(ToSet(r) + ToSet(Offered(s, Summarize(r)))) == Evict(ToSet(r) + ToSet(s))
  {
    var R, S, D := ToSet(r), ToSet(s), ToSet(Offered(s, Summarize(r)));
    var withheld := S - D - R;
    forall p | p in withheld ensures !Survives(p, R + S) {
      IdHeld(r, p);
      HorizonsAreSurvival(r, p);
      if Survives(p, R + S) { SurvivalTightens(p, R, R + S); }
    }
    EvictWithoutLosers(R + S, withheld);
    assert R + S - withheld == R + D;
  }

  // Once a receiver holds the joint log, the same sender has nothing more to offer.
  lemma NothingLeftToOffer(joint: seq<Pointer>, H: set<Pointer>, s: seq<Pointer>)
    requires StrictlyAscending(joint) && ToSet(joint) == Evict(H)
    requires UniqueIds(H) && ToSet(s) <= H
    ensures Offered(s, Summarize(joint)) == []
  {
    EvictIdempotent(H);
    assert Seated(joint);
    var offered := Offered(s, Summarize(joint));
    if offered != [] {
      var p := offered[0];
      assert p in ToSet(offered) && p in s && p in ToSet(s);
      assert H + {p} == H;
      IdHeld(joint, p);
      HorizonsAreSurvival(joint, p);
      SurvivorsDecide(p, H);
      assert false;
    }
  }
}
