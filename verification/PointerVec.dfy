// The pointer log as the vector the contract stores: sorted, deduplicated by reply post,
// evicted. The vector-level results reduce to the set-level ones of PointerLog.
module PointerVec {
  import opened Basics
  import opened PointerLog

  // Restrict, with its membership spelled out element by element.
  function Retain(s: seq<Pointer>, keep: set<Pointer>): (r: seq<Pointer>)
    ensures r == Restrict(s, keep)
    ensures forall p :: p in r <==> p in s && p in keep
  {
    var r := Restrict(s, keep);
    assert forall p :: p in r <==> p in ToSet(r);
    r
  }

  // ---- sorting and deduplication ----

  ghost predicate Ascending(s: seq<Pointer>) {
    forall i, j :: 0 <= i < j < |s| ==> s[i].SortKey().Le(s[j].SortKey())
  }

  ghost predicate StrictlyAscending(s: seq<Pointer>) {
    forall i, j :: 0 <= i < j < |s| ==> s[i].SortKey().Lt(s[j].SortKey())
  }

  ghost predicate DistinctIds(s: seq<Pointer>) {
    forall i, j :: 0 <= i < j < |s| ==> s[i].Id() != s[j].Id()
  }

  lemma AscendingCons(p: Pointer, s: seq<Pointer>)
    requires Ascending(s) && forall q :: q in s ==> p.SortKey().Le(q.SortKey())
    ensures Ascending([p] + s)
  {
    var r := [p] + s;
    forall i, j | 0 <= i < j < |r| ensures r[i].SortKey().Le(r[j].SortKey()) {
      assert r[j] == s[j - 1] && (i > 0 ==> r[i] == s[i - 1]);
    }
  }

  lemma StrictSnoc(s: seq<Pointer>, p: Pointer)
    requires StrictlyAscending(s) && forall q :: q in s ==> q.SortKey().Lt(p.SortKey())
    ensures StrictlyAscending(s + [p])
  {
    var r := s + [p];
    forall i, j | 0 <= i < j < |r| ensures r[i].SortKey().Lt(r[j].SortKey()) {
      assert r[i] == s[i] && r[i] in s;
    }
  }

  // Vec::sort_by_key: stable, so an equal key keeps its place before later ones.
  function InsertByKey(p: Pointer, s: seq<Pointer>): (r: seq<Pointer>)
    ensures ToSet(r) == ToSet(s) + {p} && |r| == |s| + 1
  {
    if s == [] || p.SortKey().Le(s[0].SortKey()) then
      ToSetSplit([p], s);
      [p] + s
    else
      assert s == [s[0]] + s[1..];
      ToSetSplit([s[0]], s[1..]);
      ToSetSplit([s[0]], InsertByKey(p, s[1..]));
      [s[0]] + InsertByKey(p, s[1..])
  }

  lemma {:induction false} InsertKeepsOrder(p: Pointer, s: seq<Pointer>)
    requires Ascending(s)
    ensures Ascending(InsertByKey(p, s))
  {
    if s == [] {
    } else if p.SortKey().Le(s[0].SortKey()) {
      AscendingCons(p, s);
    } else {
      var tail := InsertByKey(p, s[1..]);
      InsertKeepsOrder(p, s[1..]);
      assert forall q :: q in tail ==> q in ToSet(tail);
      AscendingCons(s[0], tail);
    }
  }

  function SortByKey(s: seq<Pointer>): (r: seq<Pointer>)
    ensures ToSet(r) == ToSet(s) && |r| == |s|
    ensures Ascending(r)
  {
    if s == [] then []
    else
      assert s == [s[0]] + s[1..];
      ToSetSplit([s[0]], s[1..]);
      InsertKeepsOrder(s[0], SortByKey(s[1..]));
      InsertByKey(s[0], SortByKey(s[1..]))
  }

  function Ids(s: seq<Pointer>): set<PostId> {
    set p | p in s :: p.Id()
  }

  // Keeps the first pointer of each reply post, in order.
  function FirstPerId(s: seq<Pointer>): (r: seq<Pointer>)
    ensures ToSet(r) <= ToSet(s)
  {
    if s == [] then []
    else
      var n := |s| - 1;
      ToSetSnoc(s);
      var front := FirstPerId(s[..n]);
      ToSetSplit(front, [s[n]]);
      if s[n].Id() in Ids(s[..n]) then front else front + [s[n]]
  }

  lemma FirstPerIdStart()
    ensures FirstPerId([]) == [] && Ids([]) == {}
  {}

  // One step of the deduplicating scan.
  lemma FirstPerIdStep(s: seq<Pointer>, i: nat)
    requires i < |s|
    ensures Ids(s[..i + 1]) == Ids(s[..i]) + {s[i].Id()}
    ensures FirstPerId(s[..i + 1]) == FirstPerId(s[..i]) + (if s[i].Id() in Ids(s[..i]) then [] else [s[i]])
  {
    var t := s[..i + 1];
    assert t == s[..i] + [s[i]] && t[..i] == s[..i];
  }

  lemma {:induction false} FirstPerIdOrder(s: seq<Pointer>)
    requires Ascending(s)
    ensures StrictlyAscending(FirstPerId(s))
  {
    if s != [] {
      var n := |s| - 1;
      FirstPerIdOrder(s[..n]);
      ToSetSnoc(s);
      var front := FirstPerId(s[..n]);
      if s[n].Id() !in Ids(s[..n]) {
        forall q | q in front ensures q.SortKey().Lt(s[n].SortKey()) {
          assert q in ToSet(front) && q in s[..n] && q.Id() in Ids(s[..n]);
        }
        StrictSnoc(front, s[n]);
      }
    }
  }

  // The pointer that represents a reply post: lowest order key, first arrival on a tie.
  function WinnerOf(s: seq<Pointer>, id: PostId): (w: Option<Pointer>)
    ensures w.None? <==> id !in Ids(s)
    ensures w.Some? ==> w.value in s && w.value.Id() == id
    ensures w.Some? ==> forall p :: p in s && p.Id() == id ==> w.value.SortKey().Le(p.SortKey())
  {
    if s == [] then None
    else
      assert s == [s[0]] + s[1..] && Ids(s) == {s[0].Id()} + Ids(s[1..]);
      var rest := WinnerOf(s[1..], id);
      if s[0].Id() == id && (rest.None? || s[0].SortKey().Le(rest.value.SortKey())) then Some(s[0]) else rest
  }

  ghost function Reduced(s: seq<Pointer>): set<Pointer> {
    set p | p in s && WinnerOf(s, p.Id()) == Some(p)
  }

  // What canonicalize leaves: the sorted representatives that survive eviction.
  ghost function Canonical(s: seq<Pointer>): seq<Pointer> {
    Restrict(FirstPerId(SortByKey(s)), Evict(Reduced(s)))
  }

  lemma WinnerOfCons(p: Pointer, s: seq<Pointer>, id: PostId)
    ensures WinnerOf([p] + s, id) ==
      var rest := WinnerOf(s, id);
      if p.Id() == id && (rest.None? || p.SortKey().Le(rest.value.SortKey())) then Some(p) else rest
  {
    assert ([p] + s)[1..] == s;
  }

  // In a list sorted by key the winner is simply the first occurrence.
  lemma {:induction false} WinnerAfterInsert(p: Pointer, s: seq<Pointer>, id: PostId)
    requires Ascending(s)
    ensures WinnerOf(InsertByKey(p, s), id) == WinnerOf([p] + s, id)
  {
    if s == [] || p.SortKey().Le(s[0].SortKey()) {
    } else {
      WinnerAfterInsert(p, s[1..], id);
      WinnerOfCons(s[0], InsertByKey(p, s[1..]), id);
      WinnerOfCons(p, s[1..], id);
      WinnerOfCons(p, s, id);
      assert s == [s[0]] + s[1..];
      WinnerOfCons(s[0], s[1..], id);
      if WinnerOf(s[1..], id).Some? { assert WinnerOf(s[1..], id).value in s[1..]; }
    }
  }

  lemma {:induction false} WinnerAfterSort(s: seq<Pointer>, id: PostId)
    ensures WinnerOf(SortByKey(s), id) == WinnerOf(s, id)
  {
    if s != [] {
      WinnerAfterSort(s[1..], id);
      var t := SortByKey(s[1..]);
      WinnerAfterInsert(s[0], t, id);
      WinnerOfCons(s[0], t, id);
    }
  }

  lemma {:induction false} WinnerOfAppend(s: seq<Pointer>, t: seq<Pointer>, id: PostId)
    ensures WinnerOf(s + t, id) ==
      var a := WinnerOf(s, id); var b := WinnerOf(t, id);
      if a.Some? && (b.None? || a.value.SortKey().Le(b.value.SortKey())) then a else b
  {
    if s == [] {
      assert s + t == t;
    } else {
      WinnerOfAppend(s[1..], t, id);
      assert (s + t)[1..] == s[1..] + t;
    }
  }

  lemma {:induction false} FirstIsWinner(s: seq<Pointer>, p: Pointer)
    requires Ascending(s)
    ensures p in FirstPerId(s) <==> p in s && WinnerOf(s, p.Id()) == Some(p)
  {
    if s != [] {
      var n := |s| - 1;
      FirstIsWinner(s[..n], p);
      assert s == s[..n] + [s[n]] && Ids(s) == Ids(s[..n]) + {s[n].Id()};
      WinnerOfAppend(s[..n], [s[n]], p.Id());
    }
  }

  lemma RepresentativesAreReduced(s: seq<Pointer>)
    ensures ToSet(FirstPerId(SortByKey(s))) == Reduced(s)
    ensures UniqueIds(Reduced(s))
  {
    var t := SortByKey(s);
    forall p ensures p in FirstPerId(t) <==> p in Reduced(s) {
      FirstIsWinner(t, p);
      WinnerAfterSort(s, p.Id());
      assert p in t <==> p in ToSet(t);
    }
  }

  lemma ReducedWhenUnique(s: seq<Pointer>)
    requires UniqueIds(ToSet(s))
    ensures Reduced(s) == ToSet(s)
  {
    forall p | p in s ensures WinnerOf(s, p.Id()) == Some(p) {
      assert p.Id() in Ids(s);
      assert WinnerOf(s, p.Id()).value in ToSet(s);
    }
  }

  // ---- sorted lists are determined by their sets ----

  lemma {:induction false} RestrictStrict(s: seq<Pointer>, keep: set<Pointer>)
    requires StrictlyAscending(s)
    ensures StrictlyAscending(Restrict(s, keep))
  {
    if s != [] {
      var n := |s| - 1;
      RestrictStrict(s[..n], keep);
      var front := Restrict(s[..n], keep);
      forall p | p in front ensures p.SortKey().Lt(s[n].SortKey()) {
        assert p in ToSet(front) && p in ToSet(s[..n]);
      }
      if s[n] in keep { StrictSnoc(front, s[n]); }
    }
  }

  lemma {:induction false} SortedListUnique(s: seq<Pointer>, t: seq<Pointer>)
    requires StrictlyAscending(s) && StrictlyAscending(t) && ToSet(s) == ToSet(t)
    ensures s == t
  {
    assert s != [] ==> s[0] in ToSet(s);
    assert t != [] ==> t[0] in ToSet(t);
    if s != [] && t != [] {
      var n, m := |s| - 1, |t| - 1;
      assert s[n] in ToSet(t) && t[m] in ToSet(s);
      assert s[n] == t[m];
      InitSet(s);
      InitSet(t);
      SortedListUnique(s[..n], t[..m]);
      assert s == s[..n] + [s[n]] && t == t[..m] + [t[m]];
    }
  }

  lemma InitSet(s: seq<Pointer>)
    requires s != [] && StrictlyAscending(s)
    ensures ToSet(s[..|s| - 1]) == ToSet(s) - {s[|s| - 1]}
  {
    var n := |s| - 1;
    assert s == s[..n] + [s[n]];
    assert forall i :: 0 <= i < n ==> s[i] != s[n];
  }

  // Vec::remove keeps the order of the rest.
  lemma RemoveAt(s: seq<Pointer>, v: nat)
    requires StrictlyAscending(s) && v < |s|
    ensures var t := s[..v] + s[v + 1..]; StrictlyAscending(t) && ToSet(t) == ToSet(s) - {s[v]}
  {
    var t := s[..v] + s[v + 1..];
    assert forall j :: 0 <= j < |t| ==> t[j] == s[if j < v then j else j + 1];
    forall p ensures p in t <==> p in s && p != s[v] {
      if p in s && p != s[v] {
        var j :| 0 <= j < |s| && s[j] == p;
        assert t[if j < v then j else j - 1] == p;
      }
    }
  }

  lemma {:induction false} SetCard(s: seq<Pointer>)
    requires StrictlyAscending(s)
    ensures |ToSet(s)| == |s|
  {
    if s != [] {
      InitSet(s);
      SetCard(s[..|s| - 1]);
      assert s[|s| - 1] in ToSet(s);
    }
  }

  lemma CanonicalIs(s: seq<Pointer>)
    ensures StrictlyAscending(Canonical(s))
    ensures ToSet(Canonical(s)) == Evict(Reduced(s))
    ensures UniqueIds(Evict(Reduced(s)))
  {
    RepresentativesAreReduced(s);
    FirstPerIdOrder(SortByKey(s));
    RestrictStrict(FirstPerId(SortByKey(s)), Evict(Reduced(s)));
  }

  // A list is canonical exactly when it is sorted without repeats and evicts nothing.
  lemma CanonicalFixpoint(s: seq<Pointer>)
    requires UniqueIds(ToSet(s))
    ensures Canonical(s) == s <==> StrictlyAscending(s) && Evict(ToSet(s)) == ToSet(s)
  {
    CanonicalIs(s);
    ReducedWhenUnique(s);
    if StrictlyAscending(s) && Evict(ToSet(s)) == ToSet(s) {
      SortedListUnique(s, Canonical(s));
    }
  }

  // Canonicalizing again changes nothing, shared ids or not.
  lemma CanonicalIdempotent(s: seq<Pointer>)
    ensures Canonical(Canonical(s)) == Canonical(s)
  {
    hide Canonical, Survives;
    CanonicalIs(s);
    RepresentativesAreReduced(s);
    EvictIdempotent(Reduced(s));
    CanonicalFixpoint(Canonical(s));
  }

  // ---- history independence ----

  lemma CanonicalOfUnique(s: seq<Pointer>, t: seq<Pointer>)
    requires UniqueIds(ToSet(s)) && Evict(ToSet(s)) == Evict(ToSet(t)) && UniqueIds(ToSet(t))
    ensures Canonical(s) == Canonical(t)
  {
    CanonicalIs(s);
    CanonicalIs(t);
    ReducedWhenUnique(s);
    ReducedWhenUnique(t);
    SortedListUnique(Canonical(s), Canonical(t));
  }

  // Canonicalizing early, then adding more, is canonicalizing everything at once.
  lemma HistoryIndependence(x: seq<Pointer>, y: seq<Pointer>)
    requires UniqueIds(ToSet(x + y))
    ensures Canonical(Canonical(x) + y) == Canonical(x + y)
  {
    assert ToSet(x + y) == ToSet(x) + ToSet(y);
    CanonicalIs(x);
    ReducedWhenUnique(x);
    assert ToSet(Canonical(x) + y) == Evict(ToSet(x)) + ToSet(y);
    EvictAbsorbs(ToSet(x), ToSet(y));
    CanonicalOfUnique(Canonical(x) + y, x + y);
  }

  // The log after receiving the chunks one at a time, canonicalizing after each.
  ghost function Run(chunks: seq<seq<Pointer>>): seq<Pointer> {
    if chunks == [] then []
    else Canonical(Run(chunks[..|chunks| - 1]) + chunks[|chunks| - 1])
  }

  ghost function Received(chunks: seq<seq<Pointer>>): set<Pointer> {
    set c, p | c in chunks && p in c :: p
  }

  lemma ReceivedSnoc(chunks: seq<seq<Pointer>>, c: seq<Pointer>)
    ensures Received(chunks + [c]) == Received(chunks) + ToSet(c)
  {
    assert forall d :: d in chunks + [c] <==> d in chunks || d == c;
  }

  lemma {:induction false} RunIs(chunks: seq<seq<Pointer>>)
    requires UniqueIds(Received(chunks))
    ensures StrictlyAscending(Run(chunks)) && ToSet(Run(chunks)) == Evict(Received(chunks))
  {
    if chunks != [] {
      var n := |chunks| - 1;
      var before := Received(chunks[..n]);
      ToSetSnoc(chunks);
      ReceivedSnoc(chunks[..n], chunks[n]);
      RunIs(chunks[..n]);
      var s := Run(chunks[..n]) + chunks[n];
      assert ToSet(s) == Evict(before) + ToSet(chunks[n]);
      ReducedWhenUnique(s);
      CanonicalIs(s);
      EvictAbsorbs(before, ToSet(chunks[n]));
    }
  }

  // Order, chunking and duplication of deliveries do not matter, at any fill level.
  lemma AnyOrderSameLog(chunks: seq<seq<Pointer>>, others: seq<seq<Pointer>>)
    requires UniqueIds(Received(chunks)) && Received(chunks) == Received(others)
    ensures Run(chunks) == Run(others)
  {
    RunIs(chunks);
    RunIs(others);
    SortedListUnique(Run(chunks), Run(others));
  }
}
