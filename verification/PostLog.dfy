// The feed's post log: sorted by (time, id), adjacent duplicates removed, newest kept.
module PostLog {
  import opened Basics

  const MAX_POSTS: nat := 300

  datatype PostRef = PostRef(author: Key, post: PostId)

  datatype Post = Post(id: PostId, time: u64, content: Text, inReplyTo: Option<PostRef>, signature: Signature) {
    function SortKey(): OrderKey { OrderKey(time, id) }

    predicate NewerThan(p: Post) { p.SortKey().Lt(SortKey()) }
  }

  ghost predicate UniqueIds(S: set<Post>) {
    forall p, q :: p in S && q in S && p.id == q.id ==> p == q
  }

  // All a post id is assumed to determine for validity: the time it was hashed with.
  ghost predicate IdsFixTimes(S: set<Post>) {
    forall p, q :: p in S && q in S && p.id == q.id ==> p.time == q.time
  }

  // ---- which posts are kept ----

  ghost function Newer(p: Post, S: set<Post>): set<Post> { set q | q in S && q.NewerThan(p) }

  ghost predicate Kept(p: Post, S: set<Post>) { |Newer(p, S)| < MAX_POSTS }

  ghost function Evict(S: set<Post>): set<Post> { set p | p in S && Kept(p, S) }

  lemma KeptTightens(p: Post, S: set<Post>, T: set<Post>)
    requires S <= T && Kept(p, T)
    ensures Kept(p, S)
  {
    SubsetCard(Newer(p, S), Newer(p, T));
  }

  lemma LoserLeavesOthers(p: Post, S: set<Post>, q: Post)
    requires q in S && !Kept(q, S)
    ensures Kept(p, S) <==> Kept(p, S - {q})
  {
    if q in Newer(p, S) {
      assert Newer(q, S) <= Newer(p, S - {q});
      SubsetCard(Newer(q, S), Newer(p, S - {q}));
      SubsetCard(Newer(p, S - {q}), Newer(p, S));
    } else {
      assert Newer(p, S) == Newer(p, S - {q});
    }
  }

  lemma {:induction false} LosersLeaveOthers(p: Post, S: set<Post>, losers: set<Post>)
    requires losers <= S && forall q :: q in losers ==> !Kept(q, S)
    ensures Kept(p, S) <==> Kept(p, S - losers)
    decreases losers
  {
    hide Kept;
    if q :| q in losers {
      LoserLeavesOthers(p, S, q);
      forall x | x in losers - {q} ensures !Kept(x, S - {q}) { LoserLeavesOthers(x, S, q); }
      LosersLeaveOthers(p, S - {q}, losers - {q});
      assert S - {q} - (losers - {q}) == S - losers;
    } else {
      assert S - losers == S;
    }
  }

  lemma EvictWithoutLosers(S: set<Post>, losers: set<Post>)
    requires losers <= S && forall q :: q in losers ==> !Kept(q, S)
    ensures Evict(S - losers) == Evict(S)
  {
    hide Kept;
    forall p | p in S ensures Kept(p, S) <==> Kept(p, S - losers) { LosersLeaveOthers(p, S, losers); }
  }

  lemma SurvivorsDecide(p: Post, S: set<Post>)
    ensures Kept(p, Evict(S)) <==> Kept(p, S)
  {
    hide Kept;
    LosersLeaveOthers(p, S, S - Evict(S));
    assert S - (S - Evict(S)) == Evict(S);
  }

  // ---- the vector ----

  ghost predicate Ascending(s: seq<Post>) {
    forall i, j :: 0 <= i < j < |s| ==> s[i].SortKey().Le(s[j].SortKey())
  }

  ghost predicate StrictlyAscending(s: seq<Post>) {
    forall i, j :: 0 <= i < j < |s| ==> s[i].SortKey().Lt(s[j].SortKey())
  }

  ghost predicate DistinctIds(s: seq<Post>) {
    forall i, j :: 0 <= i < j < |s| ==> s[i].id != s[j].id
  }

  // Vec::sort_by_key, stable.
  function InsertByKey(p: Post, s: seq<Post>): (r: seq<Post>)
    ensures ToSet(r) == ToSet(s) + {p}
  {
    if s == [] || p.SortKey().Le(s[0].SortKey()) then
      ToSetSplit([p], s);
      [p] + s
    else
      assert s == [s[0]] + s[1..];
      ToSetSplit([s[0]], s[1..]);
      ToSetSplit([s[0]], InsertByKey(p, s[1..]));
      [s[0]] + InsertByKey(p, s[1..])
  }

  function SortByKey(s: seq<Post>): (r: seq<Post>)
    ensures ToSet(r) == ToSet(s)
  {
    if s == [] then []
    else
      assert s == [s[0]] + s[1..];
      ToSetSplit([s[0]], s[1..]);
      InsertByKey(s[0], SortByKey(s[1..]))
  }

  lemma AscendingCons(p: Post, s: seq<Post>)
    requires Ascending(s) && forall q :: q in s ==> p.SortKey().Le(q.SortKey())
    ensures Ascending([p] + s)
  {
    var r := [p] + s;
    forall i, j | 0 <= i < j < |r| ensures r[i].SortKey().Le(r[j].SortKey()) {
      assert r[j] == s[j - 1] && (i > 0 ==> r[i] == s[i - 1]);
    }
  }

  lemma {:induction false} InsertKeepsOrder(p: Post, s: seq<Post>)
    requires Ascending(s)
    ensures Ascending(InsertByKey(p, s))
  {
    if s == [] {
    } else if p.SortKey().Le(s[0].SortKey()) {
      AscendingCons(p, s);
    } else {
      var tail := InsertByKey(p, s[1..]);
      InsertKeepsOrder(p, s[1..]);
      assert forall q :: q in tail ==> q in ToSet(tail);
      AscendingCons(s[0], tail);
    }
  }

  lemma {:induction false} SortAscends(s: seq<Post>)
    ensures Ascending(SortByKey(s))
  {
    if s != [] {
      SortAscends(s[1..]);
      InsertKeepsOrder(s[0], SortByKey(s[1..]));
    }
  }

  // Vec::dedup_by_key: drops a post whose id equals that of the last one kept.
  function DedupAdjacent(s: seq<Post>): (r: seq<Post>)
    ensures s == [] <==> r == []
    ensures s != [] ==> r[|r| - 1].id == s[|s| - 1].id
    ensures ToSet(r) <= ToSet(s)
  {
    if s == [] then []
    else
      var n := |s| - 1;
      ToSetSnoc(s);
      var front := DedupAdjacent(s[..n]);
      ToSetSplit(front, [s[n]]);
      if front != [] && front[|front| - 1].id == s[n].id then front else front + [s[n]]
  }

  function NewestPosts(s: seq<Post>): seq<Post> {
    if |s| > MAX_POSTS then s[|s| - MAX_POSTS..] else s
  }

  function Canonical(s: seq<Post>): seq<Post> {
    NewestPosts(DedupAdjacent(SortByKey(s)))
  }

  lemma DedupStart()
    ensures DedupAdjacent([]) == []
  {}

  lemma DedupNext(s: seq<Post>, p: Post)
    ensures var front := DedupAdjacent(s);
      DedupAdjacent(s + [p]) == if front != [] && front[|front| - 1].id == p.id then front else front + [p]
  {
    assert (s + [p])[..|s|] == s;
  }

  // ---- when dropping adjacent repeats is enough ----

  // Some post sorts strictly between two uses of another id.
  ghost predicate Interleaved(S: set<Post>) {
    exists a, b, c :: a in S && b in S && c in S && a.id == c.id && b.id != a.id
      && a.SortKey().Lt(b.SortKey()) && b.SortKey().Lt(c.SortKey())
  }

  lemma PartInterleaved(S: set<Post>, part: set<Post>)
    requires part <= S && Interleaved(part)
    ensures Interleaved(S)
  {}

  lemma FixedTimesNeverInterleave(S: set<Post>)
    requires IdsFixTimes(S)
    ensures !Interleaved(S)
  {}

  lemma UniqueIdsNeverInterleave(S: set<Post>)
    requires UniqueIds(S)
    ensures !Interleaved(S)
  {}

  lemma AscendingSnoc(s: seq<Post>, p: Post)
    requires Ascending(s) && forall q :: q in s ==> q.SortKey().Le(p.SortKey())
    ensures Ascending(s + [p])
  {
    var r := s + [p];
    assert forall i :: 0 <= i < |s| ==> r[i] == s[i] && s[i] in s;
  }

  lemma BelowLast(s: seq<Post>, q: Post)
    requires s != [] && Ascending(s) && q in s
    ensures q.SortKey().Le(s[|s| - 1].SortKey())
  {}

  lemma {:induction false} DedupAscends(s: seq<Post>)
    requires Ascending(s)
    ensures Ascending(DedupAdjacent(s))
  {
    if s != [] {
      var n := |s| - 1;
      ToSetSnoc(s);
      DedupAscends(s[..n]);
      var front := DedupAdjacent(s[..n]);
      DedupNext(s[..n], s[n]);
      hide DedupAdjacent;
      forall q | q in front ensures q.SortKey().Le(s[n].SortKey()) {
        assert q in ToSet(front) && q in ToSet(s);
        BelowLast(s, q);
      }
      AscendingSnoc(front, s[n]);
    }
  }

  // A kept post with the id of a later, differently headed run is cut off from it by the
  // last post kept.
  lemma SecondRun(s: seq<Post>, front: seq<Post>, q: Post, last: Post)
    requires Ascending(front) && front != [] && q in front && ToSet(front) <= ToSet(s)
    requires Ascending(s) && s != [] && last == s[|s| - 1]
    requires q.id == last.id && front[|front| - 1].id != last.id
    ensures Interleaved(ToSet(s))
  {
    var tip := front[|front| - 1];
    BelowLast(front, q);
    assert q in ToSet(front) && tip in ToSet(front) && tip in ToSet(s);
    BelowLast(s, tip);
    assert q in ToSet(s) && last in ToSet(s);
  }

  lemma DistinctSnoc(front: seq<Post>, p: Post)
    requires DistinctIds(front) && forall q :: q in front ==> q.id != p.id
    ensures DistinctIds(front + [p])
  {
    assert forall i :: 0 <= i < |front| ==> front[i] in front && (front + [p])[i] == front[i];
  }

  lemma PrefixAscends(s: seq<Post>)
    requires s != [] && Ascending(s)
    ensures Ascending(s[..|s| - 1])
  {}

  lemma {:induction false} UninterleavedDedups(s: seq<Post>)
    requires Ascending(s) && !Interleaved(ToSet(s))
    ensures DistinctIds(DedupAdjacent(s))
  {
    hide Interleaved, Ascending, DistinctIds;
    if s == [] {
      NoIds();
    } else {
      var n := |s| - 1;
      var front := DedupAdjacent(s[..n]);
      ToSetSnoc(s);
      PrefixAscends(s);
      if Interleaved(ToSet(s[..n])) { PartInterleaved(ToSet(s), ToSet(s[..n])); }
      UninterleavedDedups(s[..n]);
      DedupAscends(s[..n]);
      DedupNext(s[..n], s[n]);
      hide DedupAdjacent;
      if front == [] || front[|front| - 1].id != s[n].id {
        forall q | q in front ensures q.id != s[n].id {
          if q.id == s[n].id { SecondRun(s, front, q, s[n]); }
        }
        DistinctSnoc(front, s[n]);
      }
    }
  }

  lemma NoIds()
    ensures DistinctIds([])
  {}

  lemma {:induction false} DedupPrefix(s: seq<Post>, i: nat)
    requires i <= |s|
    ensures DedupAdjacent(s[..i]) <= DedupAdjacent(s)
    decreases |s|
  {
    hide DedupAdjacent;
    if i == |s| {
      assert s[..i] == s;
    } else {
      LastStep(s);
      DedupPrefix(s[..|s| - 1], i);
      assert s[..|s| - 1][..i] == s[..i];
    }
  }

  // The list kept up to position j is longer than the one kept up to i when their ids differ.
  lemma KeptRunGrows(s: seq<Post>, i: nat, j: nat)
    requires i < j < |s| && s[i].id != s[j].id
    ensures |DedupAdjacent(s[..i + 1])| < |DedupAdjacent(s[..j + 1])|
  {
    DedupPrefix(s[..j + 1], i + 1);
    assert s[..j + 1][..i + 1] == s[..i + 1];
  }

  lemma LastKept(s: seq<Post>, i: nat)
    requires i < |s|
    ensures var d, k := DedupAdjacent(s), |DedupAdjacent(s[..i + 1])|;
      0 < k <= |d| && d[k - 1].id == s[i].id
  {
    DedupPrefix(s, i + 1);
  }

  lemma PositionOf(s: seq<Post>, p: Post) returns (i: nat)
    requires p in ToSet(s)
    ensures i < |s| && s[i] == p
  {
    i :| 0 <= i < |s| && s[i] == p;
  }

  lemma RepeatsAt(s: seq<Post>, i: nat, j: nat, k: nat)
    requires i < j < k < |s| && s[i].id == s[k].id && s[j].id != s[i].id
    ensures !DistinctIds(DedupAdjacent(s))
  {
    hide DedupAdjacent;
    KeptRunGrows(s, i, j);
    KeptRunGrows(s, j, k);
    LastKept(s, i);
    LastKept(s, k);
    var d := DedupAdjacent(s);
    assert d[|DedupAdjacent(s[..i + 1])| - 1].id == d[|DedupAdjacent(s[..k + 1])| - 1].id;
  }

  lemma InOrder(s: seq<Post>, i: nat, j: nat)
    requires i < |s| && j < |s| && Ascending(s) && s[i].SortKey().Lt(s[j].SortKey())
    ensures i < j
  {}

  lemma InterleavedRepeats(s: seq<Post>)
    requires Ascending(s) && Interleaved(ToSet(s))
    ensures !DistinctIds(DedupAdjacent(s))
  {
    hide DedupAdjacent, DistinctIds, Ascending;
    var a, b, c :| a in ToSet(s) && b in ToSet(s) && c in ToSet(s) && a.id == c.id && b.id != a.id
      && a.SortKey().Lt(b.SortKey()) && b.SortKey().Lt(c.SortKey());
    var i := PositionOf(s, a);
    var j := PositionOf(s, b);
    var k := PositionOf(s, c);
    InOrder(s, i, j);
    InOrder(s, j, k);
    RepeatsAt(s, i, j, k);
  }

  // Exactly when sorting and dropping adjacent repeats leaves each id once.
  lemma AdjacentDedupExactly(s: seq<Post>)
    ensures DistinctIds(DedupAdjacent(SortByKey(s))) <==> !Interleaved(ToSet(s))
  {
    SortAscends(s);
    if Interleaved(ToSet(s)) { InterleavedRepeats(SortByKey(s)); } else { UninterleavedDedups(SortByKey(s)); }
  }

  lemma DistinctIsStrict(s: seq<Post>)
    requires Ascending(s) && DistinctIds(s)
    ensures StrictlyAscending(s)
  {}

  // With unique ids nothing but repeats is dropped.
  lemma {:induction false} DedupKeepsAll(s: seq<Post>)
    requires UniqueIds(ToSet(s))
    ensures ToSet(DedupAdjacent(s)) == ToSet(s)
  {
    if s != [] {
      var n := |s| - 1;
      ToSetSnoc(s);
      var front := DedupAdjacent(s[..n]);
      assert UniqueIds(ToSet(s[..n]));
      DedupKeepsAll(s[..n]);
      ToSetSplit(front, [s[n]]);
      if front != [] && front[|front| - 1].id == s[n].id {
        assert front[|front| - 1] in ToSet(front);
      }
    }
  }

  lemma {:induction false} SetCard(s: seq<Post>)
    requires StrictlyAscending(s)
    ensures |ToSet(s)| == |s|
  {
    if s != [] {
      var n := |s| - 1;
      ToSetSnoc(s);
      SetCard(s[..n]);
      assert s[n] !in ToSet(s[..n]);
    }
  }

  lemma TailNewer(s: seq<Post>, i: nat)
    requires StrictlyAscending(s) && i < |s|
    ensures Newer(s[i], ToSet(s)) == ToSet(s[i + 1..]) && |ToSet(s[i + 1..])| == |s| - i - 1
  {
    SetCard(s[i + 1..]);
    forall q ensures q in s[i + 1..] <==> q in s && q.NewerThan(s[i]) {
      if q in s {
        var j :| 0 <= j < |s| && s[j] == q;
        if j > i { assert s[i + 1..][j - i - 1] == q; }
      }
      if q in s[i + 1..] {
        var k :| 0 <= k < |s[i + 1..]| && s[i + 1..][k] == q;
        assert s[i + 1 + k] == q;
      }
    }
  }

  // Draining the oldest excess is eviction by rank.
  lemma NewestIs(s: seq<Post>)
    requires StrictlyAscending(s)
    ensures StrictlyAscending(NewestPosts(s)) && ToSet(NewestPosts(s)) == Evict(ToSet(s))
  {
    var r, k := NewestPosts(s), if |s| > MAX_POSTS then |s| - MAX_POSTS else 0;
    assert r == s[k..];
    forall i | 0 <= i < |s| ensures s[i] in r <==> Kept(s[i], ToSet(s)) {
      TailNewer(s, i);
      if i >= k { assert r[i - k] == s[i]; }
    }
    assert forall p :: p in r ==> p in s;
  }

  lemma {:induction false} SortedListUnique(s: seq<Post>, t: seq<Post>)
    requires StrictlyAscending(s) && StrictlyAscending(t) && ToSet(s) == ToSet(t)
    ensures s == t
  {
    EmptyToSet(s);
    EmptyToSet(t);
    if s != [] {
      var n, m := |s| - 1, |t| - 1;
      ToSetSnoc(s);
      ToSetSnoc(t);
      assert s[n] in ToSet(t) && t[m] in ToSet(s);
      assert s[n] == t[m];
      assert s[n] !in s[..n] && t[m] !in t[..m];
      assert ToSet(s[..n]) == ToSet(s) - {s[n]} && ToSet(t[..m]) == ToSet(t) - {t[m]};
      SortedListUnique(s[..n], t[..m]);
    }
  }

  // With unique ids the canonical log is the sorted list of the newest posts.
  lemma CanonicalIs(s: seq<Post>)
    requires UniqueIds(ToSet(s))
    ensures StrictlyAscending(Canonical(s)) && ToSet(Canonical(s)) == Evict(ToSet(s))
  {
    SortAscends(s);
    DedupAscends(SortByKey(s));
    UniqueIdsNeverInterleave(ToSet(s));
    UninterleavedDedups(SortByKey(s));
    DistinctIsStrict(DedupAdjacent(SortByKey(s)));
    DedupKeepsAll(SortByKey(s));
    NewestIs(DedupAdjacent(SortByKey(s)));
  }

  lemma NewestDistinct(d: seq<Post>)
    requires DistinctIds(d)
    ensures DistinctIds(NewestPosts(d))
  {}

  lemma NewestAscends(d: seq<Post>)
    requires Ascending(d)
    ensures Ascending(NewestPosts(d)) && ToSet(NewestPosts(d)) <= ToSet(d) && |NewestPosts(d)| <= MAX_POSTS
  {
    var r := NewestPosts(d);
    assert forall p :: p in r ==> p in d;
  }

  // The canonical log is always sorted, within the cap and drawn from its input; it is free
  // of repeated ids as soon as no post interleaves two uses of another id, and, when nothing
  // is drained, only then.
  lemma CanonicalIsValid(s: seq<Post>)
    ensures var c := Canonical(s);
      && Ascending(c) && |c| <= MAX_POSTS && ToSet(c) <= ToSet(s)
      && (!Interleaved(ToSet(s)) ==> DistinctIds(c))
      && (|DedupAdjacent(SortByKey(s))| <= MAX_POSTS ==> (DistinctIds(c) <==> !Interleaved(ToSet(s))))
  {
    hide DedupAdjacent, Interleaved, Ascending, DistinctIds;
    SortAscends(s);
    DedupAscends(SortByKey(s));
    AdjacentDedupExactly(s);
    var d := DedupAdjacent(SortByKey(s));
    if DistinctIds(d) { NewestDistinct(d); }
    NewestAscends(d);
  }

  // ---- when a canonical log repeats an id, drained or not ----

  // The posts that draining leaves in question: all of them when nothing is drained, and
  // otherwise those not older than the MAX_POSTS-th newest of the deduplicated input.
  function FromCut(s: seq<Post>): set<Post> {
    var d := DedupAdjacent(SortByKey(s));
    set p | p in s && (|d| <= MAX_POSTS || d[|d| - MAX_POSTS].SortKey().Le(p.SortKey()))
  }

  lemma CutIsOldestKept(s: seq<Post>)
    ensures FromCut(s) == set p | p in s && Canonical(s) != [] && Canonical(s)[0].SortKey().Le(p.SortKey())
  {
    var t := SortByKey(s);
    SortAscends(s);
    DedupAscends(t);
    KeepsOldest(t);
    hide SortByKey, DedupAdjacent;
    forall p | p in s ensures p in t {
      assert p in ToSet(s) && p in ToSet(t);
    }
    var d := DedupAdjacent(t);
    if |d| > MAX_POSTS { assert Canonical(s)[0] == d[|d| - MAX_POSTS]; }
  }

  // Nothing in a sorted list is older than the first post kept of it.
  lemma KeepsOldest(s: seq<Post>)
    requires Ascending(s)
    ensures s != [] ==> DedupAdjacent(s) != [] && DedupAdjacent(s)[0] == s[0]
    ensures forall p :: p in s ==> s[0].SortKey().Le(p.SortKey())
  {
    if s != [] {
      DedupPrefix(s, 1);
      assert s[..1] == [] + [s[0]];
      DedupNext([], s[0]);
      DedupStart();
    }
  }

  ghost predicate NeighboursDiffer(s: seq<Post>) {
    forall i :: 0 <= i < |s| - 1 ==> s[i].id != s[i + 1].id
  }

  lemma {:induction false} DedupNeighbours(s: seq<Post>)
    ensures NeighboursDiffer(DedupAdjacent(s))
  {
    if s != [] { DedupNeighbours(s[..|s| - 1]); }
  }

  lemma RepeatInterleaves(c: seq<Post>, i: nat, k: nat)
    requires Ascending(c) && NeighboursDiffer(c) && i < k < |c| && c[i].id == c[k].id
    ensures Interleaved(ToSet(c))
  {
    var j := i + 1;
    assert c[i].id != c[j].id;
    assert j < k && c[i].SortKey().Le(c[j].SortKey()) && c[j].SortKey().Le(c[k].SortKey());
    assert c[i] in ToSet(c) && c[j] in ToSet(c) && c[k] in ToSet(c);
  }

  // Where the m-th kept post comes from.
  lemma {:induction false} HeadOf(s: seq<Post>, m: nat) returns (i: nat)
    requires m < |DedupAdjacent(s)|
    ensures i < |s| && s[i] == DedupAdjacent(s)[m]
    ensures |DedupAdjacent(s[..i])| == m && |DedupAdjacent(s[..i + 1])| == m + 1
  {
    hide DedupAdjacent;
    if s == [] {
      DedupStart();
      assert false;
    } else {
      var n := |s| - 1;
      LastStep(s);
      if m < |DedupAdjacent(s[..n])| {
        i := HeadOf(s[..n], m);
        assert s[..n][..i] == s[..i] && s[..n][..i + 1] == s[..i + 1];
      } else {
        i := n;
        assert s[..i + 1] == s;
      }
    }
  }

  lemma LastStep(s: seq<Post>)
    requires s != []
    ensures var n := |s| - 1; var front, d := DedupAdjacent(s[..n]), DedupAdjacent(s);
      d == front || d == front + [s[n]]
  {}

  // A post no newer than one sorted before it repeats that one's id and is not kept.
  lemma TieSkipped(s: seq<Post>, head: nat, i: nat)
    requires Ascending(s) && i < head < |s| && s[head].SortKey().Le(s[i].SortKey())
    ensures |DedupAdjacent(s[..head + 1])| == |DedupAdjacent(s[..head])|
  {
    assert s[i].SortKey().Le(s[head - 1].SortKey()) && s[head - 1].SortKey().Le(s[head].SortKey());
    assert s[head - 1].id == s[head].id;
    assert s[..head][|s[..head]| - 1] == s[head - 1] && s[..head + 1] == s[..head] + [s[head]];
    DedupNext(s[..head], s[head]);
  }

  // So what is as new as a kept post does not sort before it.
  lemma NotBeforeHead(s: seq<Post>, head: nat, i: nat)
    requires Ascending(s) && head < |s| && i < |s| && s[head].SortKey().Le(s[i].SortKey())
    requires |DedupAdjacent(s[..head + 1])| > |DedupAdjacent(s[..head])|
    ensures head <= i
  {
    hide DedupAdjacent, Ascending;
    if i < head { TieSkipped(s, head, i); }
  }

  lemma KeptInDrained(s: seq<Post>, head: nat, i: nat)
    requires head <= i < |s|
    ensures var d, k := DedupAdjacent(s), |DedupAdjacent(s[..i + 1])|;
      |DedupAdjacent(s[..head + 1])| <= k <= |d| && 0 < k && d[k - 1].id == s[i].id
  {
    LastKept(s, i);
    DedupPrefix(s[..i + 1], head + 1);
    assert s[..i + 1][..head + 1] == s[..head + 1];
  }

  // Two uses of an id cut off from each other by a third post, none sorted before the head
  // of the m-th kept post, are both kept from m on.
  lemma RepeatsFrom(s: seq<Post>, m: nat, head: nat, i: nat, j: nat, k: nat)
    requires head <= i < j < k < |s| && |DedupAdjacent(s[..head + 1])| == m + 1
    requires s[i].id == s[k].id && s[j].id != s[i].id
    ensures m < |DedupAdjacent(s)| && !DistinctIds(DedupAdjacent(s)[m..])
  {
    KeptInDrained(s, head, i);
    KeptInDrained(s, head, k);
    KeptRunGrows(s, i, j);
    KeptRunGrows(s, j, k);
    var d, a, b := DedupAdjacent(s), |DedupAdjacent(s[..i + 1])| - 1, |DedupAdjacent(s[..k + 1])| - 1;
    assert d[m..][a - m] == d[a] && d[m..][b - m] == d[b];
  }

  // Where the oldest kept post comes from.
  lemma CutOf(s: seq<Post>) returns (m: nat, head: nat)
    requires Canonical(s) != []
    ensures var t := SortByKey(s);
      && m <= |DedupAdjacent(t)| && Canonical(s) == DedupAdjacent(t)[m..]
      && head < |t| && t[head] == Canonical(s)[0]
      && |DedupAdjacent(t[..head])| == m && |DedupAdjacent(t[..head + 1])| == m + 1
  {
    hide DedupAdjacent, SortByKey;
    var d := DedupAdjacent(SortByKey(s));
    m := if |d| > MAX_POSTS then |d| - MAX_POSTS else 0;
    assert Canonical(s) == d[m..];
    head := HeadOf(SortByKey(s), m);
  }

  lemma CutRepeats(s: seq<Post>)
    requires Interleaved(FromCut(s))
    ensures !DistinctIds(Canonical(s))
  {
    CutIsOldestKept(s);
    var a, b, c :| a in FromCut(s) && b in FromCut(s) && c in FromCut(s) && a.id == c.id && b.id != a.id
      && a.SortKey().Lt(b.SortKey()) && b.SortKey().Lt(c.SortKey());
    SortAscends(s);
    hide DedupAdjacent, Ascending, DistinctIds, SortByKey, Canonical, FromCut;
    var t := SortByKey(s);
    var m, head := CutOf(s);
    assert a in ToSet(t) && b in ToSet(t) && c in ToSet(t);
    var i := PositionOf(t, a);
    var j := PositionOf(t, b);
    var k := PositionOf(t, c);
    NotBeforeHead(t, head, i);
    InOrder(t, i, j);
    InOrder(t, j, k);
    RepeatsFrom(t, m, head, i, j, k);
  }

  lemma CutInterleaves(s: seq<Post>)
    requires !DistinctIds(Canonical(s))
    ensures Interleaved(FromCut(s))
  {
    var c := Canonical(s);
    CanonicalIsValid(s);
    CutIsOldestKept(s);
    hide DedupAdjacent, SortByKey, Interleaved, Canonical, FromCut;
    var i, k :| 0 <= i < k < |c| && c[i].id == c[k].id;
    DrainedNeighbours(s);
    RepeatInterleaves(c, i, k);
    forall p | p in ToSet(c) ensures p in FromCut(s) {
      var j :| 0 <= j < |c| && c[j] == p;
      assert c[0].SortKey().Le(c[j].SortKey());
      assert p in ToSet(s);
    }
    PartInterleaved(FromCut(s), ToSet(c));
  }

  lemma DrainedNeighbours(s: seq<Post>)
    ensures NeighboursDiffer(Canonical(s))
  {
    DedupNeighbours(SortByKey(s));
    hide DedupAdjacent, SortByKey;
  }

  // A canonical log, drained or not, repeats no id exactly when no post sorts strictly
  // between two uses of another id among the posts that draining leaves in question.
  lemma CanonicalDistinctExactly(s: seq<Post>)
    ensures DistinctIds(Canonical(s)) <==> !Interleaved(FromCut(s))
  {
    hide Canonical, DistinctIds, Interleaved, FromCut;
    if Interleaved(FromCut(s)) { CutRepeats(s); }
    if !DistinctIds(Canonical(s)) { CutInterleaves(s); }
  }

  // ---- running it again ----

  lemma AscendingTail(s: seq<Post>)
    requires s != [] && Ascending(s)
    ensures Ascending(s[1..])
    ensures s[1..] == [] || s[0].SortKey().Le(s[1..][0].SortKey())
  {}

  lemma {:induction false} SortedStays(s: seq<Post>)
    requires Ascending(s)
    ensures SortByKey(s) == s
  {
    if s != [] {
      var rest := s[1..];
      AscendingTail(s);
      assert s == [s[0]] + rest;
      hide Ascending;
      SortedStays(rest);
    }
  }

  lemma {:induction false} DedupStays(s: seq<Post>)
    requires NeighboursDiffer(s)
    ensures DedupAdjacent(s) == s
  {
    if s != [] {
      var n := |s| - 1;
      assert s == s[..n] + [s[n]];
      assert forall i :: 0 <= i < n - 1 ==> s[..n][i].id != s[..n][i + 1].id;
      DedupStays(s[..n]);
    }
  }

  // Canonicalizing again changes nothing, whatever the ids.
  lemma CanonicalIdempotent(s: seq<Post>)
    ensures Canonical(Canonical(s)) == Canonical(s)
  {
    var c := Canonical(s);
    CanonicalIsValid(s);
    DrainedNeighbours(s);
    SortedStays(c);
    DedupStays(c);
  }

  // ---- history independence ----

  lemma EvictAbsorbs(X: set<Post>, Y: set<Post>)
    ensures Evict(Evict(X) + Y) == Evict(X + Y)
  {
    hide Kept;
    var losers := X - Evict(X) - Y;
    forall q | q in losers ensures !Kept(q, X + Y) {
      if Kept(q, X + Y) { KeptTightens(q, X, X + Y); }
    }
    EvictWithoutLosers(X + Y, losers);
    assert X + Y - losers == Evict(X) + Y;
  }

  // Canonicalizing early, then adding more, is canonicalizing everything at once.
  lemma HistoryIndependence(x: seq<Post>, y: seq<Post>)
    requires UniqueIds(ToSet(x + y))
    ensures Canonical(Canonical(x) + y) == Canonical(x + y)
  {
    hide Canonical, Kept;
    ToSetSplit(x, y);
    ToSetSplit(Canonical(x), y);
    CanonicalIs(x);
    CanonicalIs(x + y);
    CanonicalIs(Canonical(x) + y);
    EvictAbsorbs(ToSet(x), ToSet(y));
    SortedListUnique(Canonical(Canonical(x) + y), Canonical(x + y));
  }

  // The log after receiving the chunks one at a time.
  function Run(chunks: seq<seq<Post>>): seq<Post> {
    if chunks == [] then []
    else Canonical(Run(chunks[..|chunks| - 1]) + chunks[|chunks| - 1])
  }

  ghost function Received(chunks: seq<seq<Post>>): set<Post> {
    set c, p | c in chunks && p in c :: p
  }

  lemma {:induction false} RunIs(chunks: seq<seq<Post>>)
    requires UniqueIds(Received(chunks))
    ensures StrictlyAscending(Run(chunks)) && ToSet(Run(chunks)) == Evict(Received(chunks))
  {
    hide Kept, Canonical;
    if chunks != [] {
      var n := |chunks| - 1;
      var before, log := Received(chunks[..n]), Run(chunks[..n]);
      ToSetSnoc(chunks);
      assert forall d :: d in chunks <==> d in chunks[..n] || d == chunks[n];
      assert Received(chunks) == before + ToSet(chunks[n]);
      RunIs(chunks[..n]);
      ToSetSplit(log, chunks[n]);
      CanonicalIs(log + chunks[n]);
      EvictAbsorbs(before, ToSet(chunks[n]));
    }
  }

  // Order, chunking and repetition of deliveries do not matter, at any fill level.
  lemma AnyOrderSameLog(chunks: seq<seq<Post>>, others: seq<seq<Post>>)
    requires UniqueIds(Received(chunks)) && Received(chunks) == Received(others)
    ensures Run(chunks) == Run(others)
  {
    RunIs(chunks);
    RunIs(others);
    SortedListUnique(Run(chunks), Run(others));
  }
}
