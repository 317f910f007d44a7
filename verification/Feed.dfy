// A feed: three last-writer-wins registers and the capped post log, and the class that
// updates them in place.
module Feed {
  import opened Basics
  import opened PostLog

  const MAX_POST_BYTES: nat := 2048
  const MAX_NAME_BYTES: nat := 64
  const MAX_BIO_BYTES: nat := 512
  const MAX_FOLLOWS: nat := 2000

  datatype Profile = Profile(name: Text, bio: Text, version: u32, signature: Signature)

  datatype Follows = Follows(follows: set<Key>, version: u32, signature: Signature)

  // (version, content hash), compared lexicographically.
  datatype VersionKey = VersionKey(version: u32, hash: Hash) {
    predicate Lt(other: VersionKey) {
      version < other.version || (version == other.version && hash < other.hash)
    }
  }

  // One author's feed instance: the library cryptography under its parameters. Each
  // Signed predicate includes the author's key.
  datatype Author = Author(
    profileSigned: Profile -> bool, profileHash: Profile -> Hash,
    followsSigned: Follows -> bool, followsHash: Follows -> Hash,
    attestationOk: Attestation -> bool, attestationHash: Attestation -> Hash,
    postSigned: Post -> bool, postId: (u64, Text, Option<PostRef>) -> PostId)
  {
    function ProfileKey(p: Profile): VersionKey { VersionKey(p.version, profileHash(p)) }

    function FollowsKey(f: Follows): VersionKey { VersionKey(f.version, followsHash(f)) }

    predicate ProfileOk(p: Profile) {
      |p.name| <= MAX_NAME_BYTES && |p.bio| <= MAX_BIO_BYTES && profileSigned(p)
    }

    predicate FollowsOk(f: Follows) { |f.follows| <= MAX_FOLLOWS && followsSigned(f) }

    predicate PostOk(p: Post) {
      |p.content| <= MAX_POST_BYTES && p.id == postId(p.time, p.content, p.inReplyTo) && postSigned(p)
    }
  }

  datatype FeedState = FeedState(profile: Profile, follows: Follows, attestation: Option<Attestation>, posts: seq<Post>)

  datatype FeedDelta = FeedDelta(
    profile: Option<Profile>, follows: Option<Follows>, attestation: Option<Attestation>, posts: Option<seq<Post>>)

  datatype RetentionHorizon = Open | OldestRetained(oldest: OrderKey)

  datatype FeedSummary = FeedSummary(
    profile: VersionKey, follows: VersionKey, attestation: Option<Hash>,
    ids: set<PostId>, horizon: RetentionHorizon)

  ghost predicate PostsOk(x: Author, s: seq<Post>) {
    |s| <= MAX_POSTS && Ascending(s) && DistinctIds(s) && forall p :: p in s ==> x.PostOk(p)
  }

  ghost predicate Verified(x: Author, st: FeedState) {
    && x.ProfileOk(st.profile) && x.FollowsOk(st.follows)
    && (st.attestation.Some? ==> x.attestationOk(st.attestation.value))
    && PostsOk(x, st.posts)
  }

  // ---- summaries and deltas ----

  function PostIds(s: seq<Post>): set<PostId> { set p | p in s :: p.id }

  function Horizon(s: seq<Post>): RetentionHorizon {
    if |s| < MAX_POSTS then RetentionHorizon.Open else RetentionHorizon.OldestRetained(s[0].SortKey())
  }

  function AttHash(x: Author, a: Option<Attestation>): Option<Hash> {
    if a.Some? then Some(x.attestationHash(a.value)) else None
  }

  function Summary(x: Author, st: FeedState): FeedSummary {
    FeedSummary(x.ProfileKey(st.profile), x.FollowsKey(st.follows), AttHash(x, st.attestation),
      PostIds(st.posts), Horizon(st.posts))
  }

  predicate Retains(h: RetentionHorizon, p: Post) { h.Open? || h.oldest.Lt(p.SortKey()) }

  function OfferedPosts(s: seq<Post>, ids: set<PostId>, h: RetentionHorizon): seq<Post> {
    Restrict(s, set p | p in s && p.id !in ids && Retains(h, p))
  }

  // A hash none compares below every hash.
  predicate HashAbove(mine: Option<Hash>, theirs: Option<Hash>) {
    mine.Some? && (theirs.None? || mine.value > theirs.value)
  }

  function Delta(x: Author, st: FeedState, theirs: FeedSummary): FeedDelta {
    var ps := OfferedPosts(st.posts, theirs.ids, theirs.horizon);
    FeedDelta(
      if theirs.profile.Lt(x.ProfileKey(st.profile)) then Some(st.profile) else None,
      if theirs.follows.Lt(x.FollowsKey(st.follows)) then Some(st.follows) else None,
      if HashAbove(AttHash(x, st.attestation), theirs.attestation) then st.attestation else None,
      if ps == [] then None else Some(ps))
  }

  const NOTHING: FeedDelta := FeedDelta(None, None, None, None)

  // ---- applying a delta ----

  function LaterProfile(x: Author, held: Profile, p: Profile): Profile {
    if x.ProfileKey(held).Lt(x.ProfileKey(p)) then p else held
  }

  function LaterFollows(x: Author, held: Follows, f: Follows): Follows {
    if x.FollowsKey(held).Lt(x.FollowsKey(f)) then f else held
  }

  function LaterAttestation(x: Author, held: Option<Attestation>, a: Option<Attestation>): Option<Attestation> {
    if HashAbove(AttHash(x, a), AttHash(x, held)) then a else held
  }

  ghost predicate DeltaOk(x: Author, d: FeedDelta) {
    && (d.profile.Some? ==> x.ProfileOk(d.profile.value))
    && (d.follows.Some? ==> x.FollowsOk(d.follows.value))
    && (d.attestation.Some? ==> x.attestationOk(d.attestation.value))
    && (d.posts.Some? ==> forall p :: p in d.posts.value ==> x.PostOk(p))
  }

  function Applied(x: Author, st: FeedState, d: FeedDelta): FeedState {
    FeedState(
      if d.profile.Some? then LaterProfile(x, st.profile, d.profile.value) else st.profile,
      if d.follows.Some? then LaterFollows(x, st.follows, d.follows.value) else st.follows,
      LaterAttestation(x, st.attestation, d.attestation),
      Canonical(if d.posts.Some? then Canonical(st.posts + d.posts.value) else st.posts))
  }

  // ---- deltas keep a feed valid ----

  function PostsIn(d: FeedDelta): seq<Post> { if d.posts.Some? then d.posts.value else [] }

  lemma AppliedPosts(x: Author, st: FeedState, d: FeedDelta)
    ensures Applied(x, st, d).posts == Canonical(st.posts + PostsIn(d))
  {
    hide Canonical;
    if d.posts.Some? {
      CanonicalIdempotent(st.posts + d.posts.value);
    } else {
      assert st.posts + [] == st.posts;
    }
  }

  // An accepted delta keeps a feed valid exactly when no post sorts strictly between two uses
  // of another id among those that stay.
  lemma ApplyKeepsVerifiedExactly(x: Author, st: FeedState, d: FeedDelta)
    requires Verified(x, st) && DeltaOk(x, d)
    ensures Verified(x, Applied(x, st, d)) <==> !Interleaved(FromCut(st.posts + PostsIn(d)))
  {
    hide Canonical, Interleaved, FromCut, Ascending, DistinctIds;
    var both := st.posts + PostsIn(d);
    AppliedPosts(x, st, d);
    CanonicalIsValid(both);
    CanonicalDistinctExactly(both);
    forall p | p in Canonical(both) ensures x.PostOk(p) {
      assert p in ToSet(Canonical(both)) && p in both;
    }
  }

  // Ids that fix their posts' times are enough.
  lemma ApplyKeepsVerified(x: Author, st: FeedState, d: FeedDelta)
    requires Verified(x, st) && DeltaOk(x, d) && IdsFixTimes(ToSet(st.posts + PostsIn(d)))
    ensures Verified(x, Applied(x, st, d))
  {
    hide Verified, DeltaOk, Canonical, Interleaved, IdsFixTimes;
    var both := st.posts + PostsIn(d);
    ApplyKeepsVerifiedExactly(x, st, d);
    FixedTimesNeverInterleave(ToSet(both));
    if Interleaved(FromCut(both)) { PartInterleaved(ToSet(both), FromCut(both)); }
  }

  // ---- exchanges ----

  ghost predicate Seated(s: seq<Post>) {
    StrictlyAscending(s) && UniqueIds(ToSet(s)) && Evict(ToSet(s)) == ToSet(s)
  }

  lemma PostsSeated(x: Author, s: seq<Post>)
    requires PostsOk(x, s)
    ensures Seated(s)
  {
    assert StrictlyAscending(s);
    SetCard(s);
    forall p | p in ToSet(s) ensures Kept(p, ToSet(s)) {
      SubsetCard(Newer(p, ToSet(s)) + {p}, ToSet(s));
      assert p !in Newer(p, ToSet(s));
    }
  }

  // What the horizon withholds is what would not be kept.
  lemma HorizonIsRank(r: seq<Post>, p: Post)
    requires Seated(r) && p !in r && UniqueIds(ToSet(r) + {p})
    ensures Retains(Horizon(r), p) <==> Kept(p, ToSet(r))
  {
    var R := ToSet(r);
    SetCard(r);
    SubsetCard(Newer(p, R), R);
    if |r| >= MAX_POSTS {
      assert r[0] in R && r[0] in Evict(R);
      TailNewer(r, 0);
      assert r[0].id != p.id;
      if !r[0].SortKey().Lt(p.SortKey()) {
        forall q | q in R ensures q in Newer(p, R) {
          var i :| 0 <= i < |r| && r[i] == q;
          assert i > 0 ==> r[0].SortKey().Lt(r[i].SortKey());
        }
        assert Newer(p, R) == R;
      }
    }
  }

  lemma IdHeld(r: seq<Post>, p: Post)
    requires UniqueIds(ToSet(r) + {p})
    ensures p.id in PostIds(r) <==> p in r
  {
    if p.id in PostIds(r) {
      var q :| q in r && q.id == p.id;
      assert q in ToSet(r);
    }
  }

  lemma OfferLosesNothing(r: seq<Post>, s: seq<Post>)
    requires Seated(r) && UniqueIds(ToSet(r) + ToSet(s))
    ensures var D := ToSet(OfferedPosts(s, PostIds(r), Horizon(r)));
      D <= ToSet(s) && Evict(ToSet(r) + D) == Evict(ToSet(r) + ToSet(s))
  {
    hide Kept, Retains, Horizon;
    var R, S, D := ToSet(r), ToSet(s), ToSet(OfferedPosts(s, PostIds(r), Horizon(r)));
    var withheld := S - D - R;
    forall p | p in withheld ensures !Kept(p, R + S) {
      IdHeld(r, p);
      HorizonIsRank(r, p);
      if Kept(p, R + S) { KeptTightens(p, R, R + S); }
    }
    EvictWithoutLosers(R + S, withheld);
    assert R + S - withheld == R + D;
  }

  lemma NothingLeftToOffer(joint: seq<Post>, H: set<Post>, s: seq<Post>)
    requires StrictlyAscending(joint) && ToSet(joint) == Evict(H) && UniqueIds(H) && ToSet(s) <= H
    ensures OfferedPosts(s, PostIds(joint), Horizon(joint)) == []
  {
    hide Kept, Retains, Horizon;
    EvictWithoutLosers(H, H - Evict(H));
    assert H - (H - Evict(H)) == Evict(H);
    assert Seated(joint);
    var o := OfferedPosts(s, PostIds(joint), Horizon(joint));
    forall p | p in s ensures p.id in PostIds(joint) || !Retains(Horizon(joint), p) {
      assert p in ToSet(s) && H + {p} == H;
      IdHeld(joint, p);
      if p !in joint {
        HorizonIsRank(joint, p);
        SurvivorsDecide(p, H);
      }
    }
    EmptyToSet(o);
  }

  ghost predicate Compatible(x: Author, r: FeedState, s: FeedState) {
    Verified(x, r) && Verified(x, s) && UniqueIds(ToSet(r.posts) + ToSet(s.posts))
  }

  // Merge through r's summary; an empty delta leaves r untouched.
  ghost function Sync(x: Author, r: FeedState, s: FeedState): FeedState {
    var d := Delta(x, s, Summary(x, r));
    if d == NOTHING then r else Applied(x, r, d)
  }

  lemma DeltaIsOk(x: Author, r: FeedState, s: FeedState)
    requires Verified(x, s)
    ensures DeltaOk(x, Delta(x, s, Summary(x, r)))
  {
    var o := OfferedPosts(s.posts, PostIds(r.posts), Horizon(r.posts));
    assert forall p :: p in o ==> p in ToSet(o);
  }

  lemma PostsJoin(r: seq<Post>, s: seq<Post>)
    requires Seated(r) && UniqueIds(ToSet(r) + ToSet(s))
    ensures var o := OfferedPosts(s, PostIds(r), Horizon(r));
      var joint := Canonical(if o == [] then r else Canonical(r + o));
      && StrictlyAscending(joint) && ToSet(joint) == Evict(ToSet(r) + ToSet(s))
      && (o == [] ==> joint == r)
  {
    hide Canonical, Kept, Retains, Horizon;
    var o, H := OfferedPosts(s, PostIds(r), Horizon(r)), ToSet(r) + ToSet(s);
    OfferLosesNothing(r, s);
    ToSetSplit(r, o);
    assert UniqueIds(ToSet(r + o));
    if o == [] { assert ToSet(r) + ToSet(o) == ToSet(r); } else { CanonicalIs(r + o); }
    var merged := if o == [] then r else Canonical(r + o);
    assert ToSet(merged) == Evict(H);
    CanonicalIs(merged);
    EvictWithoutLosers(H, H - Evict(H));
    assert H - (H - Evict(H)) == Evict(H);
    if o == [] { SortedListUnique(Canonical(r), r); }
  }

  // Merging through a summary is a join: the greater register on each side, and the newest
  // posts of both logs.
  lemma SyncIsJoin(x: Author, r: FeedState, s: FeedState)
    requires Compatible(x, r, s)
    ensures var j := Sync(x, r, s);
      && j.profile == LaterProfile(x, r.profile, s.profile) && j.follows == LaterFollows(x, r.follows, s.follows)
      && j.attestation == LaterAttestation(x, r.attestation, s.attestation)
      && StrictlyAscending(j.posts) && ToSet(j.posts) == Evict(ToSet(r.posts) + ToSet(s.posts))
      && DeltaOk(x, Delta(x, s, Summary(x, r))) && Verified(x, j)
  {
    hide Canonical, Evict, Horizon, PostsOk, UniqueIds, OfferedPosts;
    PostsSeated(x, r.posts);
    PostsJoin(r.posts, s.posts);
    DeltaIsOk(x, r, s);
    var d := Delta(x, s, Summary(x, r));
    OfferedIdsFixTimes(x, r, s);
    ApplyKeepsVerified(x, r, d);
  }

  lemma OfferedIdsFixTimes(x: Author, r: FeedState, s: FeedState)
    requires Compatible(x, r, s)
    ensures IdsFixTimes(ToSet(r.posts + PostsIn(Delta(x, s, Summary(x, r)))))
  {
    hide Retains, Horizon, PostsOk;
    var o := OfferedPosts(s.posts, PostIds(r.posts), Horizon(r.posts));
    ToSetSplit(r.posts, o);
    ToSetSplit(r.posts, []);
    assert ToSet(o) <= ToSet(s.posts);
  }

  // A second exchange offers nothing.
  lemma NoReoffer(x: Author, r: FeedState, s: FeedState)
    requires Compatible(x, r, s)
    ensures Delta(x, s, Summary(x, Sync(x, r, s))) == NOTHING
  {
    hide Sync, Evict, Horizon, PostsOk, OfferedPosts;
    SyncIsJoin(x, r, s);
    NothingLeftToOffer(Sync(x, r, s).posts, ToSet(r.posts) + ToSet(s.posts), s.posts);
  }

  // Content hashes tell records of equal version apart.
  ghost predicate HashesTellApart(x: Author, r: FeedState, s: FeedState) {
    && (x.ProfileKey(r.profile) == x.ProfileKey(s.profile) ==> r.profile == s.profile)
    && (x.FollowsKey(r.follows) == x.FollowsKey(s.follows) ==> r.follows == s.follows)
    && (AttHash(x, r.attestation) == AttHash(x, s.attestation) ==> r.attestation == s.attestation)
  }

  // One exchange each way leaves both replicas equal exactly when the hashes tell their
  // records apart.
  lemma ExchangeConverges(x: Author, r: FeedState, s: FeedState)
    requires Compatible(x, r, s)
    ensures Sync(x, r, s) == Sync(x, s, r) <==> HashesTellApart(x, r, s)
  {
    hide Sync, Evict, Verified;
    assert ToSet(r.posts) + ToSet(s.posts) == ToSet(s.posts) + ToSet(r.posts);
    SyncIsJoin(x, r, s);
    SyncIsJoin(x, s, r);
    SortedListUnique(Sync(x, r, s).posts, Sync(x, s, r).posts);
  }

  // ---- the feed in place ----

  lemma PrefixGrows(s: seq<Post>, i: nat)
    requires i < |s|
    ensures s[..i + 1] == s[..i] + [s[i]] && s[..i + 1][..i] == s[..i]
  {}

  class FeedV1 {
    var profile: Profile
    var follows: Follows
    var attestation: Option<Attestation>
    var posts: seq<Post>

    ghost function Value(): FeedState
      reads this
    {
      FeedState(profile, follows, attestation, posts)
    }

    constructor (st: FeedState)
      ensures Value() == st
    {
      profile, follows, attestation, posts := st.profile, st.follows, st.attestation, st.posts;
    }

    // Sort, drop adjacent repeats, drain the oldest excess.
    method Canonicalize()
      modifies this`posts
      ensures posts == Canonical(old(posts))
    {
      hide SortByKey, DedupAdjacent;
      var s := SortByKey(posts);
      DedupStart();
      posts := [];
      var i := 0;
      while i < |s|
        invariant 0 <= i <= |s|
        invariant posts == DedupAdjacent(s[..i])
      {
        PrefixGrows(s, i);
        DedupNext(s[..i], s[i]);
        if posts == [] || posts[|posts| - 1].id != s[i].id { posts := posts + [s[i]]; }
        i := i + 1;
      }
      assert s[..|s|] == s;
      if |posts| > MAX_POSTS {
        var excess := |posts| - MAX_POSTS;
        posts := posts[excess..];
      }
    }

    method CheckPosts(x: Author, ps: seq<Post>) returns (ok: bool)
      ensures ok <==> forall p :: p in ps ==> x.PostOk(p)
    {
      var i := 0;
      while i < |ps|
        invariant 0 <= i <= |ps|
        invariant forall j :: 0 <= j < i ==> x.PostOk(ps[j])
      {
        if !x.PostOk(ps[i]) { return false; }
        i := i + 1;
      }
      ok := true;
    }

    // Components in declaration order, then the cleanup. On failure the object may be half
    // updated; the caller discards it.
    method ApplyDelta(x: Author, d: FeedDelta) returns (ok: bool)
      modifies this
      ensures ok <==> DeltaOk(x, d)
      ensures ok ==> Value() == Applied(x, old(Value()), d)
    {
      hide Canonical;
      if d.profile.Some? {
        if !x.ProfileOk(d.profile.value) { return false; }
        if x.ProfileKey(profile).Lt(x.ProfileKey(d.profile.value)) { profile := d.profile.value; }
      }
      if d.follows.Some? {
        if !x.FollowsOk(d.follows.value) { return false; }
        if x.FollowsKey(follows).Lt(x.FollowsKey(d.follows.value)) { follows := d.follows.value; }
      }
      if d.attestation.Some? {
        if !x.attestationOk(d.attestation.value) { return false; }
        if attestation.None? || x.attestationHash(d.attestation.value) > x.attestationHash(attestation.value) {
          attestation := d.attestation;
        }
      }
      if d.posts.Some? {
        ok := CheckPosts(x, d.posts.value);
        if !ok { return; }
        posts := posts + d.posts.value;
        Canonicalize();
      }
      Canonicalize();
      ok := true;
    }
  }
}
