// The feed in plain terms: which record of each register wins, which posts stay, what is
// checked, from fields, comparisons and numbers alone.
module FeedReference {
  import opened Basics
  import opened PostLog
  import opened Feed

  // ---- registers ----

  // For an accepted delta: a greater version replaces, a smaller one does not, and an equal
  // one does with a greater content hash; any attestation beats none, and otherwise the
  // greater content hash does.
  lemma LaterWins(x: Author, st: FeedState, d: FeedDelta)
    requires DeltaOk(x, d)
    ensures d.profile.None? ==> Applied(x, st, d).profile == st.profile
    ensures d.profile.Some? ==>
      var held, sent, end := st.profile, d.profile.value, Applied(x, st, d).profile;
      && (sent.version > held.version ==> end == sent) && (sent.version < held.version ==> end == held)
      && (sent.version == held.version && x.profileHash(sent) > x.profileHash(held) ==> end == sent)
      && (sent.version == held.version && x.profileHash(sent) <= x.profileHash(held) ==> end == held)
    ensures d.follows.None? ==> Applied(x, st, d).follows == st.follows
    ensures d.follows.Some? ==>
      var held, sent, end := st.follows, d.follows.value, Applied(x, st, d).follows;
      && (sent.version > held.version ==> end == sent) && (sent.version < held.version ==> end == held)
      && (sent.version == held.version && x.followsHash(sent) > x.followsHash(held) ==> end == sent)
      && (sent.version == held.version && x.followsHash(sent) <= x.followsHash(held) ==> end == held)
    ensures d.attestation.None? ==> Applied(x, st, d).attestation == st.attestation
    ensures d.attestation.Some? && st.attestation.None? ==> Applied(x, st, d).attestation == d.attestation
    ensures d.attestation.Some? && st.attestation.Some? ==>
      var held, sent, end := st.attestation.value, d.attestation.value, Applied(x, st, d).attestation;
      && (x.attestationHash(sent) > x.attestationHash(held) ==> end == Some(sent))
      && (x.attestationHash(sent) <= x.attestationHash(held) ==> end == Some(held))
  {
    hide Canonical;
  }

  // ---- posts ----

  predicate Before(p: Post, q: Post) { p.time < q.time || (p.time == q.time && p.id < q.id) }

  // Fewer than 300 posts of S are newer.
  ghost predicate AmongNewest(p: Post, S: set<Post>) { |set q | q in S && Before(p, q)| < 300 }

  lemma KeptExactly(p: Post, S: set<Post>)
    ensures Kept(p, S) <==> AmongNewest(p, S)
  {
    assert Newer(p, S) == set q | q in S && Before(p, q);
  }

  // The posts that are the first of their id in s.
  ghost predicate Leads(s: seq<Post>, i: nat)
    requires i < |s|
  {
    forall j :: 0 <= j < i ==> s[j].id != s[i].id
  }

  ghost function Leaders(s: seq<Post>): set<Post> {
    set i | 0 <= i < |s| && Leads(s, i) :: s[i]
  }

  function FirstOf(s: seq<Post>, id: PostId): Option<Post> {
    if s == [] then None else if s[0].id == id then Some(s[0]) else FirstOf(s[1..], id)
  }

  lemma {:induction false} FirstLeads(s: seq<Post>, i: nat)
    requires i < |s| && Leads(s, i)
    ensures FirstOf(s, s[i].id) == Some(s[i])
  {
    if i > 0 {
      assert forall j :: 0 <= j < i - 1 ==> s[1..][j] == s[j + 1];
      FirstLeads(s[1..], i - 1);
    }
  }

  lemma {:induction false} LeaderOf(s: seq<Post>, id: PostId) returns (i: nat)
    requires FirstOf(s, id).Some?
    ensures i < |s| && Leads(s, i) && FirstOf(s, id) == Some(s[i]) && s[i].id == id
  {
    if s[0].id == id {
      i := 0;
    } else {
      i := LeaderOf(s[1..], id);
      i := i + 1;
      assert forall j :: 0 < j < |s| ==> s[j] == s[1..][j - 1];
    }
  }

  lemma LeadersAre(s: seq<Post>, p: Post)
    ensures p in Leaders(s) <==> FirstOf(s, p.id) == Some(p)
  {
    if p in Leaders(s) {
      var i :| 0 <= i < |s| && Leads(s, i) && s[i] == p;
      FirstLeads(s, i);
    }
    if FirstOf(s, p.id) == Some(p) { var i := LeaderOf(s, p.id); }
  }

  // An equal id means an equal order key, and the sort is stable.
  lemma {:induction false} FirstAfterInsert(p: Post, t: seq<Post>, id: PostId)
    requires forall q :: q in t && q.id == p.id ==> q.time == p.time
    ensures FirstOf(InsertByKey(p, t), id) == FirstOf([p] + t, id)
  {
    if t == [] || p.SortKey().Le(t[0].SortKey()) {
    } else {
      FirstAfterInsert(p, t[1..], id);
      var rest := InsertByKey(p, t[1..]);
      assert ([t[0]] + rest)[1..] == rest && ([p] + t)[1..] == t && ([p] + t[1..])[1..] == t[1..];
      assert t[0] in t;
    }
  }

  lemma {:induction false} FirstAfterSort(s: seq<Post>, id: PostId)
    requires IdsFixTimes(ToSet(s))
    ensures FirstOf(SortByKey(s), id) == FirstOf(s, id)
  {
    if s != [] {
      var t := SortByKey(s[1..]);
      assert s == [s[0]] + s[1..] && s[0] in ToSet(s);
      forall q | q in t ensures q in ToSet(s) { assert q in ToSet(t) && q in s[1..]; }
      FirstAfterSort(s[1..], id);
      FirstAfterInsert(s[0], t, id);
      assert ([s[0]] + t)[1..] == t;
    }
  }

  lemma {:induction false} FirstAfterSnoc(s: seq<Post>, v: Post, id: PostId)
    ensures FirstOf(s + [v], id) ==
      if FirstOf(s, id).Some? then FirstOf(s, id) else if v.id == id then Some(v) else None
  {
    if s != [] {
      assert (s + [v])[1..] == s[1..] + [v];
      FirstAfterSnoc(s[1..], v, id);
    }
  }

  lemma {:induction false} FirstExists(s: seq<Post>, id: PostId)
    ensures FirstOf(s, id).Some? <==> exists q :: q in s && q.id == id
  {
    if s != [] {
      FirstExists(s[1..], id);
      assert forall q :: q in s <==> q == s[0] || q in s[1..];
    }
  }

  lemma UsedBefore(s: seq<Post>, v: Post)
    requires s != [] && Ascending(s + [v]) && IdsFixTimes(ToSet(s + [v]))
    ensures s[|s| - 1].id == v.id <==> exists q :: q in s && q.id == v.id
  {
    if q :| q in s && q.id == v.id {
      var i :| 0 <= i < |s| && s[i] == q;
      var t := s + [v];
      assert t[i] in ToSet(t) && t[|s|] in ToSet(t);
      assert t[i].SortKey().Le(t[|s| - 1].SortKey()) || i == |s| - 1;
      assert t[|s| - 1].SortKey().Le(t[|s|].SortKey());
    }
    if s[|s| - 1].id == v.id { assert s[|s| - 1] in s; }
  }

  lemma DedupSnoc(s: seq<Post>, v: Post, p: Post)
    ensures p in DedupAdjacent(s + [v]) <==>
      p in DedupAdjacent(s) || (p == v && (s == [] || s[|s| - 1].id != v.id))
  {
    DedupNext(s, v);
  }

  lemma PrefixFine(s: seq<Post>, v: Post)
    requires Ascending(s + [v]) && IdsFixTimes(ToSet(s + [v]))
    ensures Ascending(s) && IdsFixTimes(ToSet(s))
  {
    assert forall i :: 0 <= i < |s| ==> (s + [v])[i] == s[i];
    ToSetSplit(s, [v]);
  }

  lemma {:induction false} DedupKeepsFirst(s: seq<Post>, p: Post)
    requires Ascending(s) && IdsFixTimes(ToSet(s))
    ensures p in DedupAdjacent(s) <==> FirstOf(s, p.id) == Some(p)
  {
    hide Ascending, IdsFixTimes;
    if s != [] {
      var front, v := s[..|s| - 1], s[|s| - 1];
      assert s == front + [v];
      PrefixFine(front, v);
      DedupKeepsFirst(front, p);
      DedupSnoc(front, v, p);
      FirstAfterSnoc(front, v, p.id);
      FirstExists(front, v.id);
      if front != [] { UsedBefore(front, v); }
      hide DedupAdjacent, FirstOf;
      FirstHasId(front, p.id);
    } else {
      DedupStart();
    }
  }

  lemma FirstHasId(s: seq<Post>, id: PostId)
    ensures FirstOf(s, id).Some? ==> FirstOf(s, id).value.id == id
  {
    if FirstOf(s, id).Some? { var i := LeaderOf(s, id); }
  }

  // The whole of canonicalize: of each id the first post, of these the newest 300, in order.
  // Posts under one id have one time.
  lemma CanonicalExactly(s: seq<Post>)
    requires forall p, q :: p in s && q in s && p.id == q.id ==> p.time == q.time
    ensures forall p :: p in Canonical(s) <==> p in Leaders(s) && AmongNewest(p, Leaders(s))
    ensures forall i, j :: 0 <= i < j < |Canonical(s)| ==> Before(Canonical(s)[i], Canonical(s)[j])
  {
    hide Kept, AmongNewest, Leads, Interleaved;
    var t := SortByKey(s);
    var d := DedupAdjacent(t);
    SortAscends(s);
    DedupAscends(t);
    assert IdsFixTimes(ToSet(s));
    FixedTimesNeverInterleave(ToSet(s));
    AdjacentDedupExactly(s);
    DistinctIsStrict(d);
    NewestIs(d);
    forall p ensures p in d <==> p in Leaders(s) {
      DedupKeepsFirst(t, p);
      FirstAfterSort(s, p.id);
      LeadersAre(s, p);
    }
    assert ToSet(d) == Leaders(s);
    forall p ensures p in Canonical(s) <==> p in Leaders(s) && AmongNewest(p, Leaders(s)) {
      KeptExactly(p, Leaders(s));
      assert p in Canonical(s) <==> p in ToSet(Canonical(s));
    }
  }

  // ---- what is checked ----

  ghost predicate PostChecks(x: Author, p: Post) {
    |p.content| <= 2048 && p.id == x.postId(p.time, p.content, p.inReplyTo) && x.postSigned(p)
  }

  ghost predicate ProfileChecks(x: Author, p: Profile) {
    |p.name| <= 64 && |p.bio| <= 512 && x.profileSigned(p)
  }

  ghost predicate FollowsChecks(x: Author, f: Follows) { |f.follows| <= 2000 && x.followsSigned(f) }

  // What a delta is accepted for: every component present in it checks.
  lemma AcceptedExactly(x: Author, d: FeedDelta)
    ensures DeltaOk(x, d) <==>
      && (d.profile.Some? ==> ProfileChecks(x, d.profile.value))
      && (d.follows.Some? ==> FollowsChecks(x, d.follows.value))
      && (d.attestation.Some? ==> x.attestationOk(d.attestation.value))
      && (d.posts.Some? ==> forall p :: p in d.posts.value ==> PostChecks(x, p))
  {}

  // What full-state validation accepts.
  lemma VerifiedExactly(x: Author, st: FeedState)
    ensures Verified(x, st) <==>
      && ProfileChecks(x, st.profile) && FollowsChecks(x, st.follows)
      && (st.attestation.Some? ==> x.attestationOk(st.attestation.value))
      && |st.posts| <= 300 && (forall p :: p in st.posts ==> PostChecks(x, p))
      && (forall i, j :: 0 <= i < j < |st.posts| ==>
            Before(st.posts[i], st.posts[j]) && st.posts[i].id != st.posts[j].id)
  {}

  // ---- exchanges ----

  // What any summary, stale or fabricated, is answered with.
  lemma OfferedToAny(x: Author, s: FeedState, theirs: FeedSummary, p: Post)
    ensures p in PostsIn(Delta(x, s, theirs)) <==>
      && p in s.posts && p.id !in theirs.ids
      && match theirs.horizon
         case Open => true
         case OldestRetained(o) => o.time < p.time || (o.time == p.time && o.tie < p.id)
  {
    var o := OfferedPosts(s.posts, theirs.ids, theirs.horizon);
    assert p in o <==> p in ToSet(o);
  }

  // A post is offered to a valid feed exactly when the feed has no post under its id and it
  // would be among the newest there.
  lemma OfferedExactly(x: Author, r: FeedState, s: FeedState, p: Post)
    requires Verified(x, r)
    ensures p in PostsIn(Delta(x, s, Summary(x, r))) <==>
      p in s.posts && (forall q :: q in r.posts ==> q.id != p.id) && AmongNewest(p, ToSet(r.posts))
  {
    hide PostsOk, AmongNewest, Kept, Retains, Horizon;
    var o := OfferedPosts(s.posts, PostIds(r.posts), Horizon(r.posts));
    assert p in o <==> p in ToSet(o);
    PostsSeated(x, r.posts);
    KeptExactly(p, ToSet(r.posts));
    if forall q :: q in r.posts ==> q.id != p.id {
      HorizonIsRank(r.posts, p);
    }
  }

  // Merging through a summary ends with the greatest version of each register and the greatest
  // hash at that version, any attestation rather than none, and the newest 300 posts of both.
  lemma SyncTakesLatest(x: Author, r: FeedState, s: FeedState)
    requires Compatible(x, r, s)
    ensures var j, p, q := Sync(x, r, s).profile, r.profile, s.profile;
      && (j == p || j == q) && j.version >= p.version && j.version >= q.version
      && (j.version == p.version ==> x.profileHash(j) >= x.profileHash(p))
      && (j.version == q.version ==> x.profileHash(j) >= x.profileHash(q))
    ensures var j, f, g := Sync(x, r, s).follows, r.follows, s.follows;
      && (j == f || j == g) && j.version >= f.version && j.version >= g.version
      && (j.version == f.version ==> x.followsHash(j) >= x.followsHash(f))
      && (j.version == g.version ==> x.followsHash(j) >= x.followsHash(g))
    ensures var j := Sync(x, r, s).attestation;
      && (j == r.attestation || j == s.attestation)
      && forall a :: r.attestation == Some(a) || s.attestation == Some(a) ==>
        j.Some? && x.attestationHash(j.value) >= x.attestationHash(a)
    ensures var j, all := Sync(x, r, s), ToSet(r.posts) + ToSet(s.posts);
      && (forall p :: p in j.posts <==> p in all && AmongNewest(p, all))
      && (forall i, k :: 0 <= i < k < |j.posts| ==> Before(j.posts[i], j.posts[k]))
  {
    hide Sync, Verified, Kept, AmongNewest, UniqueIds;
    SyncIsJoin(x, r, s);
    var j, all := Sync(x, r, s), ToSet(r.posts) + ToSet(s.posts);
    forall p ensures p in j.posts <==> p in all && AmongNewest(p, all) {
      KeptExactly(p, all);
      assert p in j.posts <==> p in ToSet(j.posts);
    }
  }
}
