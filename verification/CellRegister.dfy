// The signed mutable cell: one owner-signed record, greatest (seq, content hash) wins.
module CellRegister {
  import opened Basics
  import opened Pow

  type Hasher = Cell -> Hash

  datatype CellKey = CellKey(seqNo: u64, hash: Hash) {
    predicate Lt(other: CellKey) {
      seqNo < other.seqNo || (seqNo == other.seqNo && hash < other.hash)
    }

    predicate Le(other: CellKey) { this == other || Lt(other) }
  }

  function OrderKey(h: Hasher, c: Cell): CellKey { CellKey(c.seqNo, h(c)) }

  // A part without bytes carries no cell.
  datatype Update =
    | State(state: Option<Cell>)
    | Delta(delta: Option<Cell>)
    | StateAndDelta(both: Option<Cell>, also: Option<Cell>)
    | Unknown

  function Carried(o: Option<Cell>): set<Cell> { if o.Some? then {o.value} else {} }

  function CellsOf(u: Update): set<Cell> {
    match u
    case State(c) => Carried(c)
    case Delta(c) => Carried(c)
    case StateAndDelta(c, d) => Carried(c) + Carried(d)
    case Unknown => {}
  }

  function CellsIn(us: seq<Update>): set<Cell> {
    set u, c | u in us && c in CellsOf(u) :: c
  }

  ghost predicate AllSigned(signed: Publisher, S: set<Cell>) {
    forall c :: c in S ==> Genuine(signed, c)
  }

  ghost predicate Accepted(signed: Publisher, stored: Option<Cell>, us: seq<Update>) {
    AllSigned(signed, Carried(stored) + CellsIn(us)) && Unknown !in us
  }

  // held is a cell of greatest seq, and greatest hash at that seq, among S; none when S is empty.
  ghost predicate Greatest(h: Hasher, held: Option<Cell>, S: set<Cell>) {
    && (held.None? <==> S == {})
    && (held.Some? ==> held.value in S && forall c :: c in S ==>
          c.seqNo < held.value.seqNo || (c.seqNo == held.value.seqNo && h(c) <= h(held.value)))
  }

  method Merge(h: Hasher, held: Option<Cell>, incoming: Cell, ghost seen: set<Cell>) returns (next: Option<Cell>)
    requires Greatest(h, held, seen)
    ensures Greatest(h, next, seen + {incoming})
    ensures next == held || next == Some(incoming)
    ensures held.Some? && next != held ==> OrderKey(h, held.value).Lt(OrderKey(h, incoming))
  {
    next := held;
    if held.None? || OrderKey(h, held.value).Lt(OrderKey(h, incoming)) { next := Some(incoming); }
  }

  // Check a part of an update, then merge what it carries.
  method Absorb(signed: Publisher, h: Hasher, held: Option<Cell>, part: Option<Cell>, ghost seen: set<Cell>)
    returns (ok: bool, next: Option<Cell>)
    requires Greatest(h, held, seen)
    ensures ok <==> AllSigned(signed, Carried(part))
    ensures ok ==> Greatest(h, next, seen + Carried(part))
  {
    ok, next := true, held;
    if part.None? {
      assert seen + Carried(part) == seen;
    } else if Genuine(signed, part.value) {
      next := Merge(h, held, part.value, seen);
    } else {
      ok := false;
    }
  }

  lemma CellsStep(us: seq<Update>, i: nat)
    requires i < |us|
    ensures CellsIn(us[..i + 1]) == CellsIn(us[..i]) + CellsOf(us[i])
    ensures CellsOf(us[i]) <= CellsIn(us)
  {
    assert forall u :: u in us[..i + 1] <==> u in us[..i] || u == us[i];
    assert us[i] in us;
  }

  // c is the stored cell, or rides in some part of some update.
  ghost predicate Seen(stored: Option<Cell>, us: seq<Update>, c: Cell) {
    || stored == Some(c) || State(Some(c)) in us || Delta(Some(c)) in us
    || exists u :: u in us && u.StateAndDelta? && (u.both == Some(c) || u.also == Some(c))
  }

  lemma SeenAre(stored: Option<Cell>, us: seq<Update>, c: Cell)
    ensures c in Carried(stored) + CellsIn(us) <==> Seen(stored, us, c)
  {
    if c in CellsIn(us) {
      var u :| u in us && c in CellsOf(u);
      assert u.StateAndDelta? ==> u.both == Some(c) || u.also == Some(c);
    }
    if u :| u in us && u.StateAndDelta? && (u.both == Some(c) || u.also == Some(c)) { assert c in CellsOf(u); }
    if State(Some(c)) in us { assert c in CellsOf(State(Some(c))); }
    if Delta(Some(c)) in us { assert c in CellsOf(Delta(Some(c))); }
  }

  // An update is accepted exactly when the stored cell and every part of every update checks.
  lemma AcceptedExactly(signed: Publisher, stored: Option<Cell>, us: seq<Update>)
    ensures Accepted(signed, stored, us) <==>
      Unknown !in us && forall c :: Seen(stored, us, c) ==> signed(c) && |c.body| <= 65_536
  {
    hide CellsIn, Seen;
    forall c ensures c in Carried(stored) + CellsIn(us) <==> Seen(stored, us, c) { SeenAre(stored, us, c); }
  }

  lemma GreatestOfSeen(h: Hasher, held: Option<Cell>, stored: Option<Cell>, us: seq<Update>)
    requires Greatest(h, held, Carried(stored) + CellsIn(us))
    ensures held.Some? ==> Seen(stored, us, held.value)
    ensures forall c :: Seen(stored, us, c) ==>
      held.Some? && (c.seqNo < held.value.seqNo || (c.seqNo == held.value.seqNo && h(c) <= h(held.value)))
  {
    hide CellsIn, Seen;
    forall c ensures c in Carried(stored) + CellsIn(us) <==> Seen(stored, us, c) { SeenAre(stored, us, c); }
  }

  // The whole update: refused on any badly signed cell or unknown kind, and otherwise ends
  // with the greatest of everything seen.
  method UpdateState(signed: Publisher, h: Hasher, stored: Option<Cell>, us: seq<Update>)
    returns (r: Result<Option<Cell>>)
    ensures r.Ok? <==> Accepted(signed, stored, us)
    ensures r.Ok? ==> Greatest(h, r.value, Carried(stored) + CellsIn(us))
    ensures r.Ok? && r.value.Some? ==> Seen(stored, us, r.value.value)
    ensures r.Ok? ==> forall c :: Seen(stored, us, c) ==>
      r.value.Some? && (c.seqNo < r.value.value.seqNo || (c.seqNo == r.value.value.seqNo && h(c) <= h(r.value.value)))
  {
    hide Greatest, Genuine, CellsIn, Seen;
    var held: Option<Cell>;
    if stored.Some? && !Genuine(signed, stored.value) {
      assert stored.value in Carried(stored) + CellsIn(us);
      return Err;
    }
    held := stored;
    ghost var seen := Carried(stored);
    StoredIsGreatest(h, stored);
    var i := 0;
    NoCells();
    while i < |us|
      invariant 0 <= i <= |us|
      invariant seen == Carried(stored) + CellsIn(us[..i])
      invariant AllSigned(signed, seen) && Unknown !in us[..i]
      invariant Greatest(h, held, seen)
    {
      var u := us[i];
      var first, second := None, None;
      match u {
        case State(c) => first := c;
        case Delta(c) => first := c;
        case StateAndDelta(c, d) => first, second := c, d;
        case Unknown => assert u in us; return Err;
      }
      CellsStep(us, i);
      assert CellsOf(u) == Carried(first) + Carried(second);
      var ok;
      ok, held := Absorb(signed, h, held, first, seen);
      if !ok { return Err; }
      ok, held := Absorb(signed, h, held, second, seen + Carried(first));
      if !ok { return Err; }
      seen := seen + Carried(first) + Carried(second);
      assert us[..i + 1] == us[..i] + [u];
      i := i + 1;
    }
    assert us[..|us|] == us;
    r := Ok(held);
    GreatestOfSeen(h, held, stored, us);
  }

  lemma NoCells()
    ensures CellsIn([]) == {}
  {}

  lemma StoredIsGreatest(h: Hasher, stored: Option<Cell>)
    ensures Greatest(h, stored, Carried(stored))
  {}

  // ---- replicas ----

  // Content hashes tell cells of equal seq apart.
  ghost predicate TellsApart(h: Hasher, S: set<Cell>) {
    forall a, b :: a in S && b in S && OrderKey(h, a) == OrderKey(h, b) ==> a == b
  }

  // Replicas that saw the same cells, in whatever updates, hold the same one.
  lemma SameCellsSameHeld(h: Hasher, a: Option<Cell>, b: Option<Cell>, S: set<Cell>)
    requires Greatest(h, a, S) && Greatest(h, b, S) && TellsApart(h, S)
    ensures a == b
  {
    if a.Some? { assert b.value in S; }
  }

  // The summary is the key held; a delta is the cell itself when its key is greater.
  function Summary(h: Hasher, held: Option<Cell>): Option<CellKey> {
    if held.Some? then Some(OrderKey(h, held.value)) else None
  }

  function Offer(h: Hasher, held: Option<Cell>, theirs: Option<CellKey>): Option<Cell> {
    if held.Some? && (theirs.None? || theirs.value.Lt(OrderKey(h, held.value))) then held else None
  }

  // A sender is silent exactly when the receiver already holds the joint winner's key, and
  // an offer, once merged, is never repeated.
  lemma OfferSettles(h: Hasher, r: Option<Cell>, R: set<Cell>, s: Option<Cell>, S: set<Cell>)
    requires Greatest(h, r, R) && Greatest(h, s, S)
    ensures Offer(h, s, Summary(h, r)) == None <==> Greatest(h, r, R + S)
    ensures forall joint :: Greatest(h, joint, R + S) ==> Offer(h, s, Summary(h, joint)) == None
  {
    assert R + S == {} <==> R == {} && S == {};
    if S == {} { assert R + S == R; }
    if s.Some? { assert s.value in R + S; }
  }
}
