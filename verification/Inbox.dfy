// The inbox state: credentials keyed by posting key, the pointer log, the latched
// difficulty. What one delta does to it, as functions on values; InboxMachine holds the
// class whose methods carry it out in place.
module Inbox {
  import opened Basics
  import opened Pow
  import opened PointerLog
  import opened PointerVec
  import opened PointerSync

  datatype Cred = Cred(postingKey: Key, attestation: Option<Attestation>)

  // One inbox instance: its owner, and the library cryptography under its parameters.
  datatype Instance = Instance(
    owner: Key,
    pointerSigned: (Key, ReplyPointer, Signature) -> bool,
    attestationOk: (Attestation, Key) -> bool,
    attestationHash: Attestation -> Hash,
    attestationFp: Attestation -> string,
    anonFp: Key -> string,
    powHash: (Key, Key, u64) -> seq<u8>,
    publisher: Publisher)
  {
    function CredFingerprint(c: Cred): Fingerprint {
      match c.attestation
      case Some(att) => GhostFp(attestationFp(att))
      case None => AnonFp(anonFp(c.postingKey))
    }

    // LWW order of one posting key's credentials; the anonymous one hashes as zero.
    function CredHash(c: Cred): Hash {
      if c.attestation.Some? then attestationHash(c.attestation.value) else 0
    }

    predicate CredOk(key: Key, c: Cred) {
      c.postingKey == key && (c.attestation.Some? ==> attestationOk(c.attestation.value, c.postingKey))
    }

    predicate Signed(key: Key, p: Pointer) { pointerSigned(key, p.ptr, p.signature) }

    predicate Stamped(p: Pointer, bits: nat) {
      Clears(powHash(owner, p.ptr.replier, p.powNonce), bits)
    }

    predicate FpMatches(creds: map<Key, Cred>, p: Pointer) {
      p.ptr.replier in creds && p.ptr.fingerprint == CredFingerprint(creds[p.ptr.replier])
    }

    // Ok(false) drops the pointer; Err fails the delta that carries it.
    function CheckPointer(p: Pointer, creds: map<Key, Cred>): Result<bool> {
      if p.ptr.owner != owner then Err
      else if p.ptr.replier !in creds then Ok(false)
      else if !Signed(creds[p.ptr.replier].postingKey, p) then Err
      else Ok(FpMatches(creds, p))
    }
  }

  datatype InboxState = InboxState(
    creds: map<Key, Cred>, pointers: seq<Pointer>, powDifficulty: Option<Cell>)

  datatype InboxDelta = InboxDelta(
    creds: Option<map<Key, Cred>>, pointers: Option<seq<Pointer>>, powDifficulty: Option<Cell>)

  datatype InboxSummary = InboxSummary(
    creds: map<Key, Hash>, pointers: PointersSummary, powSeq: u64)

  const EMPTY: InboxState := InboxState(map[], [], None)

  function Repliers(s: seq<Pointer>): set<Key> { set p | p in s :: p.ptr.replier }

  // ---- validity of a full state ----

  ghost predicate WithinCaps(s: seq<Pointer>) {
    && |s| <= MAX_POINTERS
    && |TierOf(s, true)| <= ANON_POINTER_SLOTS
    && forall fp :: fp in Fingerprints(s) ==> |Group(s, fp)| <= FpCap(fp)
  }

  ghost predicate PointerOk(x: Instance, creds: map<Key, Cred>, p: Pointer) {
    x.CheckPointer(p, creds) == Ok(true) && (p.IsAnon() ==> x.Stamped(p, POW_FLOOR_BITS))
  }

  ghost predicate CredsOk(x: Instance, creds: map<Key, Cred>) {
    forall k :: k in creds ==> x.CredOk(k, creds[k])
  }

  ghost predicate PowOk(x: Instance, record: Option<Cell>) {
    record.Some? ==> Genuine(x.publisher, record.value)
  }

  ghost predicate Verified(x: Instance, st: InboxState) {
    && PowOk(x, st.powDifficulty)
    && |st.creds| <= MAX_POINTERS
    && st.creds.Keys <= Repliers(st.pointers)
    && CredsOk(x, st.creds)
    && WithinCaps(st.pointers) && Ascending(st.pointers) && DistinctIds(st.pointers)
    && (forall p :: p in st.pointers ==> PointerOk(x, st.creds, p))
  }

  // ---- summaries and deltas ----

  function Summary(x: Instance, st: InboxState): InboxSummary {
    InboxSummary(
      map k | k in st.creds :: x.CredHash(st.creds[k]),
      Summarize(st.pointers),
      DifficultySeq(st.powDifficulty))
  }

  function OfferedCreds(x: Instance, st: InboxState, theirs: InboxSummary, offered: seq<Pointer>): map<Key, Cred> {
    map k | k in st.creds
      && (k in theirs.creds ==> x.CredHash(st.creds[k]) > theirs.creds[k])
      && (k in theirs.creds || k in Repliers(offered)) :: st.creds[k]
  }

  function Delta(x: Instance, st: InboxState, theirs: InboxSummary): Option<InboxDelta> {
    var ps := Offered(st.pointers, theirs.pointers);
    var cs := OfferedCreds(x, st, theirs, ps);
    var pow := if DifficultySeq(st.powDifficulty) > theirs.powSeq then st.powDifficulty else None;
    if cs == map[] && ps == [] && pow.None? then None
    else Some(InboxDelta(
      if cs == map[] then None else Some(cs),
      if ps == [] then None else Some(ps),
      pow))
  }

  // ---- applying a delta ----

  function Admissible(x: Instance, ps: seq<Pointer>, bits: nat): set<Pointer> {
    set p | p in ps && (!p.IsAnon() || p.ptr.owner != x.owner || x.Stamped(p, bits))
  }

  function Admitted(x: Instance, ps: seq<Pointer>, bits: nat): (r: seq<Pointer>)
    ensures forall p :: p in r <==> p in ps && (!p.IsAnon() || p.ptr.owner != x.owner || x.Stamped(p, bits))
  {
    Retain(ps, Admissible(x, ps, bits))
  }

  ghost predicate BadStaple(x: Instance, creds: map<Key, Cred>, ps: seq<Pointer>) {
    exists p :: p in ps &&
      (p.ptr.owner != x.owner
       || (p.ptr.replier in creds && !x.Signed(creds[p.ptr.replier].postingKey, p)))
  }

  function Vouched(incoming: map<Key, Cred>, admitted: seq<Pointer>, held: seq<Pointer>): map<Key, Cred> {
    map k | k in incoming && (k in Repliers(admitted) || k in Repliers(held)) :: incoming[k]
  }

  predicate Wins(x: Instance, held: map<Key, Cred>, k: Key, c: Cred) {
    k in held ==> x.CredHash(held[k]) < x.CredHash(c)
  }

  function MergedCreds(x: Instance, held: map<Key, Cred>, incoming: map<Key, Cred>): map<Key, Cred> {
    map k | k in held.Keys + incoming.Keys ::
      if k in incoming && Wins(x, held, k, incoming[k]) then incoming[k] else held[k]
  }

  ghost predicate WinnersOk(x: Instance, held: map<Key, Cred>, incoming: map<Key, Cred>) {
    forall k :: k in incoming && Wins(x, held, k, incoming[k]) ==> x.CredOk(k, incoming[k])
  }

  ghost predicate FatalPointer(x: Instance, creds: map<Key, Cred>, ps: seq<Pointer>) {
    exists p :: p in ps && x.CheckPointer(p, creds).Err?
  }

  function Acceptable(x: Instance, creds: map<Key, Cred>, ps: seq<Pointer>): set<Pointer> {
    set p | p in ps && x.CheckPointer(p, creds) == Ok(true)
  }

  function Accepted(x: Instance, creds: map<Key, Cred>, ps: seq<Pointer>): (r: seq<Pointer>)
    ensures forall p :: p in r <==> p in ps && x.CheckPointer(p, creds) == Ok(true)
  {
    Retain(ps, Acceptable(x, creds, ps))
  }

  function Matched(x: Instance, st: InboxState): set<Pointer> {
    set p | p in st.pointers && x.FpMatches(st.creds, p)
  }

  function Matching(x: Instance, st: InboxState): (r: seq<Pointer>)
    ensures forall p :: p in r <==> p in st.pointers && x.FpMatches(st.creds, p)
  {
    Retain(st.pointers, Matched(x, st))
  }

  function Referenced(creds: map<Key, Cred>, s: seq<Pointer>): map<Key, Cred> {
    map k | k in creds && k in Repliers(s) :: creds[k]
  }

  ghost function Cleanup(x: Instance, st: InboxState): InboxState {
    var kept := Canonical(Matching(x, st));
    InboxState(Referenced(st.creds, kept), kept, st.powDifficulty)
  }

  // The stages of one delta, each reading the state left by the one before.
  function PowAfter(x: Instance, st: InboxState, d: InboxDelta): Option<Cell> {
    Adopt(x.publisher, st.powDifficulty, d.powDifficulty)
  }

  function CredsIn(d: InboxDelta): map<Key, Cred> { if d.creds.Some? then d.creds.value else map[] }

  function AdmittedBy(x: Instance, st: InboxState, d: InboxDelta): seq<Pointer> {
    Admitted(x, if d.pointers.Some? then d.pointers.value else [], DifficultyBits(x.publisher, PowAfter(x, st, d)))
  }

  function VouchedBy(x: Instance, st: InboxState, d: InboxDelta): map<Key, Cred> {
    Vouched(CredsIn(d), AdmittedBy(x, st, d), st.pointers)
  }

  function CredsAfter(x: Instance, st: InboxState, d: InboxDelta): map<Key, Cred> {
    MergedCreds(x, st.creds, VouchedBy(x, st, d))
  }

  ghost function PointersAfter(x: Instance, st: InboxState, d: InboxDelta): seq<Pointer> {
    if d.pointers.Some? then Canonical(st.pointers + Accepted(x, CredsAfter(x, st, d), AdmittedBy(x, st, d)))
    else st.pointers
  }

  ghost predicate Rejected(x: Instance, st: InboxState, d: InboxDelta) {
    || |CredsIn(d)| > MAX_POINTERS
    || (d.creds.Some? && BadStaple(x, CredsIn(d), AdmittedBy(x, st, d)))
    || !WinnersOk(x, st.creds, VouchedBy(x, st, d))
    || FatalPointer(x, CredsAfter(x, st, d), AdmittedBy(x, st, d))
  }

  ghost function Apply(x: Instance, st: InboxState, d: InboxDelta): Result<InboxState> {
    if Rejected(x, st, d) then Err
    else Ok(Cleanup(x, InboxState(CredsAfter(x, st, d), PointersAfter(x, st, d), PowAfter(x, st, d))))
  }

  // The shell's scrub of far-future pointers.
  function NotFuture(s: seq<Pointer>, now: u64): set<Pointer> {
    set p | p in s && p.ptr.time <= SaturatingAdd(now, MAX_FUTURE_MS)
  }

  function Scrubbed(st: InboxState, now: u64): InboxState {
    st.(pointers := Retain(st.pointers, NotFuture(st.pointers, now)))
  }

  // Full-state merge: the other side's delta against our own summary.
  ghost function Merge(x: Instance, st: InboxState, other: InboxState): Result<InboxState> {
    match Delta(x, other, Summary(x, st))
    case None => Ok(st)
    case Some(d) => Apply(x, st, d)
  }

  // ---- verified logs are seated ----

  lemma VerifiedIsSeated(s: seq<Pointer>)
    requires Ascending(s) && DistinctIds(s) && WithinCaps(s)
    ensures Seated(s)
  {
    assert StrictlyAscending(s);
    forall p | p in ToSet(s) ensures Survives(p, ToSet(s)) {
      CapsLetSurvive(s, p);
    }
  }

  lemma CapsLetSurvive(s: seq<Pointer>, p: Pointer)
    requires StrictlyAscending(s) && WithinCaps(s) && p in s
    ensures Survives(p, ToSet(s))
  {
    var fp := p.ptr.fingerprint;
    assert fp in Fingerprints(s);
    GroupCard(s, fp);
    assert p in GroupSet(s, fp) && p !in GroupNewer(p, ToSet(s));
    SubsetCard(GroupNewer(p, ToSet(s)) + {p}, GroupSet(s, fp));
    CapsLetRank(s, p);
  }

  lemma CapsLetRank(s: seq<Pointer>, p: Pointer)
    requires StrictlyAscending(s) && |s| <= MAX_POINTERS && |TierOf(s, true)| <= ANON_POINTER_SLOTS && p in s
    ensures TierRank(p, ToSet(s)) < TierShare(p, ToSet(s))
  {
    var S := ToSet(s);
    var tier := if p.IsAnon() then Anonymous(S) else Attested(S);
    TierCards(s);
    assert p in tier && p !in Above(p, S);
    SubsetCard(Fair(Above(p, S)) + {p}, tier);
    SubsetCard(Fair(Attested(S)), Attested(S));
  }

  lemma GroupCard(s: seq<Pointer>, fp: Fingerprint)
    requires StrictlyAscending(s)
    ensures |Group(s, fp)| == |GroupSet(s, fp)|
  {
    RestrictStrict(s, GroupSet(s, fp));
    SetCard(Group(s, fp));
    assert ToSet(Group(s, fp)) == GroupSet(s, fp);
  }

  lemma TierCards(s: seq<Pointer>)
    requires StrictlyAscending(s)
    ensures |TierOf(s, true)| == |Anonymous(ToSet(s))|
    ensures |TierOf(s, false)| == |Attested(ToSet(s))|
    ensures |Anonymous(ToSet(s))| + |Attested(ToSet(s))| == |s|
  {
    RestrictStrict(s, Anonymous(ToSet(s)));
    RestrictStrict(s, Attested(ToSet(s)));
    SetCard(TierOf(s, true));
    SetCard(TierOf(s, false));
    SetCard(s);
    assert ToSet(TierOf(s, true)) == Anonymous(ToSet(s));
    assert ToSet(TierOf(s, false)) == Attested(ToSet(s));
    assert Anonymous(ToSet(s)) + Attested(ToSet(s)) == ToSet(s);
  }

  lemma SeatedIsWithinCaps(s: seq<Pointer>)
    requires Seated(s)
    ensures Ascending(s) && DistinctIds(s) && WithinCaps(s)
  {
    TierCards(s);
    TierWithin(s, true);
    TierWithin(s, false);
    FairPart(ToSet(s), Attested(ToSet(s)));
    forall i, j | 0 <= i < j < |s| ensures s[i].Id() != s[j].Id() {
      assert s[i] in ToSet(s) && s[j] in ToSet(s) && s[i] != s[j];
    }
    forall fp | fp in Fingerprints(s) ensures |Group(s, fp)| <= FpCap(fp) {
      GroupWithin(s, fp);
    }
  }

  lemma TierWithin(s: seq<Pointer>, anon: bool)
    requires Seated(s)
    ensures |TierOf(s, anon)| <= if anon then ShareBeside(|Fair(Attested(ToSet(s)))|) else MAX_POINTERS
  {
    if TierOf(s, anon) != [] {
      TierList(s, anon);
      TierWithinShare(s, anon);
      assert TierOf(s, anon)[0] in TierOf(s, anon);
    }
  }

  lemma GroupWithin(s: seq<Pointer>, fp: Fingerprint)
    requires Seated(s)
    ensures |Group(s, fp)| <= FpCap(fp)
  {
    var g := Group(s, fp);
    if g != [] {
      RestrictStrict(s, GroupSet(s, fp));
      assert forall q :: q in g ==> q in ToSet(g);
      assert g[0] in g && g[0] in Evict(ToSet(s));
      OldestWithin(g, FpCap(fp), GroupNewer(g[0], ToSet(s)));
    }
  }
}
