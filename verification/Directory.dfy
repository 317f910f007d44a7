// The directory state: one map per tier, the latched difficulty, and what a delta does.
module Directory {
  import opened Basics
  import opened Pow
  import opened ListingSet

  // The directory instance: content hash, and the library cryptography.
  datatype Params = Params(
    hash: Hasher,
    listingSigned: Listing -> bool,
    attestationOk: (Attestation, Key) -> bool,
    powHash: (Key, u64) -> seq<u8>,
    publisher: Publisher)
  {
    // Listing signature always; attestation chain unless it is the one already known.
    predicate CheckSkipping(l: Listing, known: Option<Attestation>) {
      && listingSigned(l)
      && (l.attestation.Some? && l.attestation != known ==> attestationOk(l.attestation.value, l.author))
    }

    predicate Check(l: Listing) { CheckSkipping(l, None) }

    predicate Stamped(l: Listing, bits: nat) { Clears(powHash(l.author, l.powNonce), bits) }

    function Lww(l: Listing): LwwKey { l.Lww(hash) }
  }

  type Tier = map<Key, Listing>

  datatype DirState = DirState(attested: Tier, anon: Tier, powDifficulty: Option<Cell>) {
    function TierFor(l: Listing): Tier { if l.IsAnon() then anon else attested }

    function Listings(): set<Listing> { attested.Values + anon.Values }
  }

  datatype DirDelta = DirDelta(listings: seq<Listing>, powDifficulty: Option<Cell>)

  datatype DirSummary = DirSummary(
    attested: map<Key, LwwKey>, anon: map<Key, LwwKey>,
    attestedHorizon: TierHorizon, anonHorizon: TierHorizon, powSeq: u64)

  const EMPTY: DirState := DirState(map[], map[], None)

  ghost predicate WellKeyed(st: DirState) {
    && (forall k :: k in st.attested ==> st.attested[k].author == k && !st.attested[k].IsAnon())
    && (forall k :: k in st.anon ==> st.anon[k].author == k && st.anon[k].IsAnon())
  }

  ghost predicate PowOk(x: Params, record: Option<Cell>) {
    record.Some? ==> Genuine(x.publisher, record.value)
  }

  ghost predicate Verified(x: Params, st: DirState) {
    && PowOk(x, st.powDifficulty)
    && |st.attested| <= MAX_LISTINGS && |st.anon| <= ShareBeside(|st.attested|)
    && WellKeyed(st)
    && (forall k :: k in st.attested ==> x.Check(st.attested[k]))
    && (forall k :: k in st.anon ==> x.Check(st.anon[k]) && x.Stamped(st.anon[k], POW_FLOOR_BITS))
  }

  // ---- the displayed winner across tiers ----

  function Winner(x: Params, st: DirState, author: Key): Option<Listing> {
    if author in st.attested && author in st.anon then
      Some(if x.Lww(st.anon[author]).Le(x.Lww(st.attested[author])) then st.attested[author] else st.anon[author])
    else if author in st.attested then Some(st.attested[author])
    else if author in st.anon then Some(st.anon[author])
    else None
  }

  // ---- tiers as lists ----

  lemma LeastKeyExists(keys: set<Key>) returns (k: Key)
    requires keys != {}
    ensures k in keys && forall j :: j in keys ==> k <= j
  {
    k :| k in keys;
    var rest := keys - {k};
    assert forall j :: j in keys ==> j == k || j in rest;
    if rest != {} {
      var m := LeastKeyExists(rest);
      if m < k { k := m; }
    }
  }

  function LeastKey(keys: set<Key>): (k: Key)
    requires keys != {}
    ensures k in keys && forall j :: j in keys ==> k <= j
  {
    assert exists k :: k in keys && forall j :: j in keys ==> k <= j by { var k := LeastKeyExists(keys); }
    var k :| k in keys && forall j :: j in keys ==> k <= j;
    k
  }

  lemma ValuesWithout(t: Tier, k: Key)
    requires k in t
    ensures t.Values == (t - {k}).Values + {t[k]} && |t - {k}| == |t| - 1
  {
    var rest := t - {k};
    assert rest.Keys == t.Keys - {k};
    forall v | v in t.Values ensures v in rest.Values + {t[k]} {
      var j :| j in t && t[j] == v;
      if j != k { assert j in rest && rest[j] == v; }
    }
  }

  // A tier's listings in key order (BTreeMap::values).
  function Values(t: Tier): (r: seq<Listing>)
    ensures ToSet(r) == t.Values && |r| == |t|
    decreases |t|
  {
    if t == map[] then []
    else
      assert t.Keys != {};
      var k := LeastKey(t.Keys);
      ValuesWithout(t, k);
      ToSetSplit([t[k]], Values(t - {k}));
      [t[k]] + Values(t - {k})
  }

  // ---- horizons, summaries, deltas ----

  function Oldest(s: seq<Listing>): (key: OrderKey)
    requires s != []
    ensures exists l :: l in s && l.SortKey() == key
    ensures forall l :: l in s ==> key.Le(l.SortKey())
  {
    if |s| == 1 then
      assert s[0] in s;
      s[0].SortKey()
    else
      assert s == [s[0]] + s[1..];
      var rest := Oldest(s[1..]);
      var l :| l in s[1..] && l.SortKey() == rest;
      assert l in s && s[0] in s;
      if s[0].SortKey().Lt(rest) then s[0].SortKey() else rest
  }

  // The horizon of a tier with the given share.
  function Horizon(t: Tier, share: nat): TierHorizon {
    if share == 0 then Closed
    else if |t| >= share then OldestRetained(Oldest(Values(t)))
    else Open
  }

  function Summary(x: Params, st: DirState): DirSummary {
    DirSummary(
      map k | k in st.attested :: x.Lww(st.attested[k]),
      map k | k in st.anon :: x.Lww(st.anon[k]),
      Horizon(st.attested, MAX_LISTINGS),
      Horizon(st.anon, ShareBeside(|st.attested|)),
      DifficultySeq(st.powDifficulty))
  }

  predicate Wanted(x: Params, theirs: DirSummary, l: Listing) {
    var held := if l.IsAnon() then theirs.anon else theirs.attested;
    var horizon := if l.IsAnon() then theirs.anonHorizon else theirs.attestedHorizon;
    if l.author in held then held[l.author].Lt(x.Lww(l)) else horizon.Admits(l.SortKey())
  }

  function WantedPart(x: Params, theirs: DirSummary, t: Tier): Tier {
    map k | k in t && Wanted(x, theirs, t[k]) :: t[k]
  }

  function Offered(x: Params, st: DirState, theirs: DirSummary): seq<Listing> {
    Values(WantedPart(x, theirs, st.attested)) + Values(WantedPart(x, theirs, st.anon))
  }

  function Delta(x: Params, st: DirState, theirs: DirSummary): Option<DirDelta> {
    var listings := Offered(x, st, theirs);
    var pow := if DifficultySeq(st.powDifficulty) > theirs.powSeq then st.powDifficulty else None;
    if listings == [] && pow.None? then None else Some(DirDelta(listings, pow))
  }

  // ---- applying a delta ----

  function Admit(x: Params, st: DirState, l: Listing): DirState {
    if l.author in st.TierFor(l) && x.Lww(l).Le(x.Lww(st.TierFor(l)[l.author])) then st
    else if l.IsAnon() then st.(anon := st.anon[l.author := l])
    else st.(attested := st.attested[l.author := l])
  }

  function Held(st: DirState, l: Listing): Option<Listing> {
    if l.author in st.TierFor(l) then Some(st.TierFor(l)[l.author]) else None
  }

  // LWW first, then signature and attestation, then the bar.
  function AbsorbOne(x: Params, bits: nat, st: DirState, l: Listing): Result<DirState> {
    var held := Held(st, l);
    if held.Some? && x.Lww(l).Le(x.Lww(held.value)) then Ok(st)
    else if !x.CheckSkipping(l, if held.Some? then held.value.attestation else None) then Err
    else if l.IsAnon() && !x.Stamped(l, bits) then Ok(st)
    else Ok(Admit(x, st, l))
  }

  function Absorb(x: Params, bits: nat, st: DirState, ls: seq<Listing>): Result<DirState> {
    if ls == [] then Ok(st)
    else match Absorb(x, bits, st, ls[..|ls| - 1])
      case Ok(t) => AbsorbOne(x, bits, t, ls[|ls| - 1])
      case Err => Err
  }

  function NewerIn(t: Tier, k: Key): set<Key>
    requires k in t
  {
    set j | j in t && t[k].SortKey().Lt(t[j].SortKey())
  }

  // The n newest entries of a tier.
  function Newest(t: Tier, n: nat): Tier {
    map k | k in t && |NewerIn(t, k)| < n :: t[k]
  }

  // One tier's eviction loop: remove by author until the share is met. On a map that is not
  // keyed by author the oldest entry's author may name no entry, and the loop never ends.
  function TrimTo(t: Tier, n: nat): (r: Tier)
    ensures r.Keys <= t.Keys && forall k :: k in r ==> r[k] == t[k]
    ensures |t| > n ==> |r| >= n
    decreases |t|
  {
    if |t| <= n then t
    else
      var k := Oldest(Values(t)).tie;
      if k in t then
        ValuesWithout(t, k);
        TrimTo(t - {k}, n)
      else t
  }

  predicate Ends(t: Tier, n: nat) { |TrimTo(t, n)| <= n }

  // The attested tier first, then the anonymous one to the share that leaves.
  function Canonicalized(st: DirState): DirState {
    var kept := TrimTo(st.attested, MAX_LISTINGS);
    st.(attested := kept, anon := TrimTo(st.anon, ShareBeside(|kept|)))
  }

  // Both eviction loops end.
  predicate Settles(st: DirState) {
    Ends(st.attested, MAX_LISTINGS) && Ends(st.anon, ShareBeside(|TrimTo(st.attested, MAX_LISTINGS)|))
  }

  function PowAfter(x: Params, st: DirState, record: Option<Cell>): Option<Cell> {
    Adopt(x.publisher, st.powDifficulty, record)
  }

  function Apply(x: Params, st: DirState, d: DirDelta): Result<DirState> {
    if |d.listings| > MAX_LISTINGS + ANON_LISTINGS then Err
    else
      var latched := st.(powDifficulty := PowAfter(x, st, d.powDifficulty));
      match Absorb(x, DifficultyBits(x.publisher, latched.powDifficulty), latched, d.listings)
      case Ok(t) => Ok(Canonicalized(t))
      case Err => Err
  }

  function FullDelta(st: DirState): DirDelta {
    DirDelta(Values(st.attested) + Values(st.anon), st.powDifficulty)
  }

  function Merge(x: Params, st: DirState, other: DirState): Result<DirState> {
    Apply(x, st, FullDelta(other))
  }

  // ---- trimming a tier, oldest first ----

  ghost predicate Keyed(t: Tier) { forall k :: k in t ==> t[k].author == k }

  lemma OldestEntry(t: Tier) returns (k: Key)
    requires t != map[]
    ensures k in t && t[k].SortKey() == Oldest(Values(t))
    ensures forall j :: j in t ==> t[k].SortKey().Le(t[j].SortKey())
  {
    assert |Values(t)| > 0;
    var l :| l in Values(t) && l.SortKey() == Oldest(Values(t));
    assert l in ToSet(Values(t));
    k :| k in t && t[k] == l;
    forall j | j in t ensures t[k].SortKey().Le(t[j].SortKey()) {
      assert t[j] in t.Values && t[j] in ToSet(Values(t)) && t[j] in Values(t);
      assert Oldest(Values(t)).Le(t[j].SortKey());
    }
  }

  // What is left of t after dropping some of its oldest entries.
  ghost predicate Trimming(t: Tier, c: Tier) {
    && c.Keys <= t.Keys && (forall k :: k in c ==> c[k] == t[k])
    && forall j, k :: j in t && j !in c && k in c ==> t[j].SortKey().Lt(t[k].SortKey())
  }

  lemma TrimmedIsNewest(t: Tier, c: Tier, n: nat)
    requires Trimming(t, c) && |c| <= n && (c == t || |c| == n)
    ensures c == Newest(t, n)
  {
    forall k | k in t ensures k in c <==> |NewerIn(t, k)| < n {
      if c == t {
        SubsetCard(NewerIn(t, k) + {k}, t.Keys);
        assert k !in NewerIn(t, k);
      } else {
        TopByRank(t.Keys, c.Keys, k, NewerIn(t, k));
      }
    }
  }

  lemma DropOldest(t: Tier, c: Tier)
    requires Keyed(t) && Trimming(t, c) && c != map[]
    ensures var oldest := Oldest(Values(c));
      oldest.tie in c && Trimming(t, c - {oldest.tie}) && |c - {oldest.tie}| == |c| - 1
  {
    var k := OldestEntry(c);
    assert c[k].author == k;
    assert (c - {k}).Keys == c.Keys - {k};
    forall j | j in c && j != k ensures c[k].SortKey().Lt(c[j].SortKey()) {
      assert c[j].author == j;
    }
  }

  lemma {:induction false} TrimmingGoesOn(t: Tier, c: Tier, n: nat)
    requires Keyed(t) && Trimming(t, c) && (c == t || |c| >= n)
    ensures Ends(c, n) && TrimTo(c, n) == Newest(t, n)
    decreases |c|
  {
    hide Trimming, Newest, Oldest, Values, Keyed;
    if |c| <= n {
      TrimmedIsNewest(t, c, n);
    } else {
      assert c != map[];
      DropOldest(t, c);
      TrimmingGoesOn(t, c - {Oldest(Values(c)).tie}, n);
    }
  }

  // ---- when a trim ends ----

  predicate Miskeyed(t: Tier, k: Key)
    requires k in t
  {
    t[k].author != k
  }

  // Every mis-keyed entry is newer than k's, and k's is keyed.
  predicate BeforeMiskeyed(t: Tier, k: Key)
    requires k in t
  {
    !Miskeyed(t, k) && forall m :: m in t && Miskeyed(t, m) ==> t[k].SortKey().Lt(t[m].SortKey())
  }

  // The oldest mis-keyed entry names k as its author.
  predicate NamedByMiskeyed(t: Tier, k: Key) {
    exists m :: m in t && Miskeyed(t, m) && t[m].author == k
      && forall j :: j in t && Miskeyed(t, j) ==> t[m].SortKey().Le(t[j].SortKey())
  }

  // What the loop can remove before it removes nothing any more: the keyed entries older than
  // the oldest mis-keyed one, then whatever is stored under that one's author.
  function Removable(t: Tier): set<Key> {
    set k | k in t && (BeforeMiskeyed(t, k) || NamedByMiskeyed(t, k))
  }

  lemma OldestNamed(t: Tier) returns (e: Key)
    requires t != map[]
    ensures e in t && t[e].author == Oldest(Values(t)).tie
    ensures forall j :: j in t ==> t[e].SortKey().Le(t[j].SortKey())
  {
    e := OldestEntry(t);
  }

  // The oldest author names no entry: nothing can be removed.
  lemma StuckRemovesNothing(t: Tier)
    requires t != map[] && Oldest(Values(t)).tie !in t
    ensures Removable(t) == {}
  {
    hide Oldest, Values;
    var e := OldestNamed(t);
    assert Miskeyed(t, e);
  }

  // A mis-keyed entry is oldest: its author's entry goes, and after it none.
  lemma LastRemoval(t: Tier, k: Key, e: Key)
    requires k in t && e in t && Miskeyed(t, e) && t[e].author == k
    requires forall j :: j in t ==> t[e].SortKey().Le(t[j].SortKey())
    ensures Removable(t) == {k} && Removable(t - {k}) == {}
  {
    var rest := t - {k};
    assert e in rest && Miskeyed(rest, e);
    assert NamedByMiskeyed(t, k);
  }

  // No mis-keyed entry is as old: the oldest keyed entry goes, and the rest is as before.
  lemma NextRemoval(t: Tier, k: Key)
    requires k in t && t[k].author == k
    requires forall j :: j in t ==> t[k].SortKey().Le(t[j].SortKey())
    requires forall j :: j in t && Miskeyed(t, j) ==> t[j].SortKey() != t[k].SortKey()
    ensures Removable(t) == Removable(t - {k}) + {k}
  {
    var rest := t - {k};
    assert BeforeMiskeyed(t, k);
    forall j | j in rest ensures Miskeyed(rest, j) <==> Miskeyed(t, j) {}
    assert forall j :: j in t && Miskeyed(t, j) ==> j in rest;
    forall j | j in rest
      ensures BeforeMiskeyed(t, j) <==> BeforeMiskeyed(rest, j)
      ensures NamedByMiskeyed(t, j) <==> NamedByMiskeyed(rest, j)
    {
      SameMiskeyed(t, rest, j);
    }
  }

  lemma SameMiskeyed(t: Tier, rest: Tier, j: Key)
    requires j in rest && rest.Keys <= t.Keys && forall m :: m in rest ==> rest[m] == t[m]
    requires forall m :: m in t && Miskeyed(t, m) ==> m in rest
    ensures BeforeMiskeyed(t, j) <==> BeforeMiskeyed(rest, j)
    ensures NamedByMiskeyed(t, j) <==> NamedByMiskeyed(rest, j)
  {
    if NamedByMiskeyed(t, j) {
      var m :| m in t && Miskeyed(t, m) && t[m].author == j
        && forall i :: i in t && Miskeyed(t, i) ==> t[m].SortKey().Le(t[i].SortKey());
      assert m in rest && Miskeyed(rest, m);
    }
    if NamedByMiskeyed(rest, j) {
      var m :| m in rest && Miskeyed(rest, m) && rest[m].author == j
        && forall i :: i in rest && Miskeyed(rest, i) ==> rest[m].SortKey().Le(rest[i].SortKey());
      assert m in t && Miskeyed(t, m);
    }
  }

  lemma RemovalStep(t: Tier)
    requires t != map[] && Oldest(Values(t)).tie in t
    ensures var k := Oldest(Values(t)).tie;
      |t - {k}| == |t| - 1 && |Removable(t)| == |Removable(t - {k})| + 1
  {
    var k := Oldest(Values(t)).tie;
    ValuesWithout(t, k);
    var e := OldestNamed(t);
    hide Oldest, Values, Removable;
    if m :| m in t && Miskeyed(t, m) && t[m].SortKey() == t[e].SortKey() {
      LastRemoval(t, k, m);
    } else {
      assert e == k;
      NextRemoval(t, k);
      NotRemovableAfter(t, k);
    }
  }

  lemma NotRemovableAfter(t: Tier, k: Key)
    ensures k !in Removable(t - {k})
  {}

  // The loop ends exactly when the surplus is no more than what it can remove.
  lemma {:induction false} EndsExactly(t: Tier, n: nat)
    ensures Ends(t, n) <==> |t| <= n + |Removable(t)|
    decreases |t|
  {
    hide Oldest, Values, Removable;
    if |t| > n {
      assert t != map[];
      var k := Oldest(Values(t)).tie;
      if k in t {
        RemovalStep(t);
        EndsExactly(t - {k}, n);
      } else {
        StuckRemovesNothing(t);
      }
    }
  }

  // One author's listing under each of the keys below count.
  function Copies(author: Key, count: nat): (t: Tier)
    ensures |t| == count
    ensures forall k :: k in t ==> k < count && t[k] == Listing(author, 0, 0, None, 0)
  {
    if count == 0 then map[]
    else
      var rest := Copies(author, count - 1);
      assert count - 1 !in rest;
      rest[count - 1 := Listing(author, 0, 0, None, 0)]
  }

  // At any cap n, a tier the loop can remove nothing of: its author has no key in it.
  lemma StuckNeverEnds(n: nat)
    ensures !Ends(Copies(n + 1, n + 1), n)
  {
    var t := Copies(n + 1, n + 1);
    assert t.Keys != {};
    var k :| k in t;
    assert Miskeyed(t, k);
    assert Removable(t) == {};
    EndsExactly(t, n);
  }

  // ---- trims of keyed tiers and whole states ----

  // On a keyed tier the loop ends, with the n newest entries.
  lemma KeyedTrim(t: Tier, n: nat)
    requires Keyed(t)
    ensures Ends(t, n) && TrimTo(t, n) == Newest(t, n) && |Newest(t, n)| <= n
  {
    hide Newest, TrimTo;
    assert Trimming(t, t);
    TrimmingGoesOn(t, t, n);
  }

  // Beyond the cap the anonymous share is 0 whether counted before or after the trim.
  lemma CanonicalizedNewest(st: DirState)
    requires WellKeyed(st)
    ensures Settles(st)
    ensures Canonicalized(st)
      == st.(attested := Newest(st.attested, MAX_LISTINGS), anon := Newest(st.anon, ShareBeside(|st.attested|)))
  {
    hide Newest, TrimTo;
    KeyedTrim(st.attested, MAX_LISTINGS);
    ShareUnmoved(st.attested);
    KeyedTrim(st.anon, ShareBeside(|st.attested|));
  }

  lemma ShareUnmoved(t: Tier)
    requires Ends(t, MAX_LISTINGS)
    ensures ShareBeside(|TrimTo(t, MAX_LISTINGS)|) == ShareBeside(|t|)
  {
    if |t| <= MAX_LISTINGS { assert TrimTo(t, MAX_LISTINGS) == t; }
  }

  // ---- maps and sets ----

  lemma InListings(st: DirState, l: Listing)
    requires WellKeyed(st)
    ensures l in st.Listings() <==> l.author in st.TierFor(l) && st.TierFor(l)[l.author] == l
  {
    if l in st.attested.Values { var k :| k in st.attested && st.attested[k] == l; }
    if l in st.anon.Values { var k :| k in st.anon && st.anon[k] == l; }
  }

  // A well-keyed state is determined by its listings.
  lemma SameListingsSameTiers(a: DirState, b: DirState)
    requires WellKeyed(a) && WellKeyed(b) && a.Listings() == b.Listings()
    ensures a.attested == b.attested && a.anon == b.anon
  {
    TiersWithin(a, b);
    TiersWithin(b, a);
  }

  lemma TiersWithin(a: DirState, b: DirState)
    requires WellKeyed(a) && WellKeyed(b) && a.Listings() <= b.Listings()
    ensures forall k :: k in a.attested ==> k in b.attested && b.attested[k] == a.attested[k]
    ensures forall k :: k in a.anon ==> k in b.anon && b.anon[k] == a.anon[k]
  {
    forall k | k in a.attested ensures k in b.attested && b.attested[k] == a.attested[k] {
      InListings(a, a.attested[k]);
      InListings(b, a.attested[k]);
    }
    forall k | k in a.anon ensures k in b.anon && b.anon[k] == a.anon[k] {
      InListings(a, a.anon[k]);
      InListings(b, a.anon[k]);
    }
  }

  lemma TierSets(st: DirState, l: Listing)
    requires WellKeyed(st) && l in st.Listings()
    ensures l.author in st.TierFor(l) && Ahead(l, st.Listings()) == NewerIn(st.TierFor(l), l.author)
    ensures AttestedAuthors(st.Listings()) == st.attested.Keys
  {
    InListings(st, l);
  }

  // One listing per slot: each is its slot's best.
  lemma SlotsHeldOnce(h: Hasher, st: DirState, l: Listing)
    requires WellKeyed(st) && l in st.Listings()
    ensures SlotBest(h, l, st.Listings())
  {
    forall q | q in st.Listings() && q.SameSlot(l) ensures q == l {
      InListings(st, l);
      InListings(st, q);
    }
  }

  // A held listing is kept exactly when few enough of its tier are newer.
  lemma KeptByRank(h: Hasher, st: DirState, l: Listing)
    requires WellKeyed(st) && l in st.Listings()
    ensures l.author in st.TierFor(l)
    ensures Keeps(h, l, st.Listings())
      <==> |NewerIn(st.TierFor(l), l.author)| < (if l.IsAnon() then ShareBeside(|st.attested|) else MAX_LISTINGS)
  {
    hide WellKeyed, SlotBest, Ahead, AttestedAuthors, NewerIn, DirState.Listings;
    TierSets(st, l);
    SlotsHeldOnce(h, st, l);
  }

  lemma CanonicalizedKeyed(st: DirState)
    requires WellKeyed(st)
    ensures WellKeyed(Canonicalized(st))
  {
    hide TrimTo;
  }

  // Trimming both tiers is exactly set-level eviction.
  lemma CanonicalizedIs(h: Hasher, st: DirState)
    requires WellKeyed(st)
    ensures WellKeyed(Canonicalized(st))
    ensures Canonicalized(st).Listings() == Canon(h, st.Listings())
  {
    hide Keeps, WellKeyed, NewerIn, DirState.Listings, Canonicalized;
    var c := Canonicalized(st);
    CanonicalizedKeyed(st);
    CanonicalizedNewest(st);
    forall l ensures l in c.Listings() <==> l in Canon(h, st.Listings()) {
      InListings(c, l);
      InListings(st, l);
      if l in st.Listings() { KeptByRank(h, st, l); }
    }
  }
}
