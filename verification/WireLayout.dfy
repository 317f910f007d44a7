// The signed layouts byte for byte: what each record's payload is, field by field.
module WireLayout {
  import opened Basics
  import opened Wire

  // Little-endian u32 and u64.
  function U32(n: nat): Bytes { [n % 256, n / 256 % 256, n / 65536 % 256, n / 16777216 % 256] }

  function U64(n: nat): Bytes { U32(n) + U32(n / 4294967296) }

  lemma Quotients(n: nat)
    ensures n / 256 / 256 == n / 65536 && n / 65536 / 256 == n / 16777216 && n / 16777216 / 256 == n / 4294967296
  {}

  lemma LeStep(n: nat, w: nat)
    ensures Le(n, w + 1) == [n % 256] + Le(n / 256, w)
  {}

  lemma FourBytesOfLe(n: nat, w: nat)
    ensures Le(n, w + 4) == U32(n) + Le(n / 4294967296, w)
  {
    hide Le;
    Quotients(n);
    LeStep(n, w + 3);
    LeStep(n / 256, w + 2);
    LeStep(n / 65536, w + 1);
    LeStep(n / 16777216, w);
  }

  lemma LeExactly(n: nat)
    ensures Le(n, 4) == U32(n) && Le(n, 8) == U64(n)
  {
    hide U32;
    assert Le(n / 4294967296, 0) == [] && Le(n / 4294967296 / 4294967296, 0) == [];
    FourBytesOfLe(n, 0);
    FourBytesOfLe(n, 4);
    FourBytesOfLe(n / 4294967296, 0);
    assert forall m :: U32(m) + [] == U32(m);
  }

  // The keys of a follow list, one after the other.
  function Joined(keys: seq<Bytes>): Bytes {
    if keys == [] then [] else Joined(keys[..|keys| - 1]) + keys[|keys| - 1]
  }

  lemma {:induction false} ConcatExactly(keys: seq<Bytes>)
    ensures Concat(keys) == Joined(keys)
  {
    if keys != [] {
      var n := |keys| - 1;
      assert keys == keys[..n] + [keys[n]];
      ConcatSnoc(keys[..n], keys[n]);
      ConcatExactly(keys[..n]);
    }
  }

  lemma Flat3(a: Bytes, b: Bytes, c: Bytes)
    ensures a + (b + c) == a + b + c
  {}

  lemma Flat4(a: Bytes, b: Bytes, c: Bytes, d: Bytes)
    ensures a + (b + (c + d)) == a + b + c + d
  {
    Flat3(b, c, d);
    Flat3(a, b, c);
    Flat3(a, b + c, d);
  }

  lemma Flat5(a: Bytes, b: Bytes, c: Bytes, d: Bytes, e: Bytes)
    ensures a + (b + (c + (d + e))) == a + b + c + d + e
  {
    Flat4(b, c, d, e);
    Flat4(a, b, c, d);
    Flat3(a, b + (c + d), e);
    Flat3(b, c + d, e);
    Flat3(c, d, e);
  }

  lemma LengthFirst(a: Bytes, b: Bytes)
    ensures a + Prefixed(b) == a + U32(|b|) + b
  {
    LeExactly(|b|);
    Flat3(a, U32(|b|), b);
  }

  // What each record signs to: its tag, then its fields in order, lengths and counts as u32,
  // times and sequence numbers as u64, options behind a presence byte.
  lemma PostExactly(id: Bytes, time: nat, content: Bytes, reply: Option<(Bytes, Bytes)>)
    ensures var head := Ascii("freebird-post-v1") + id + U64(time) + U32(|content|) + content;
      Payload(Post(id, time, content, reply)) == match reply
        case None => head + [0]
        case Some(r) => head + [1] + r.0 + r.1
  {
    hide Ascii, U32, U64, Prefixed;
    var tag := Ascii("freebird-post-v1");
    LeExactly(time);
    LengthFirst(tag + id + U64(time), content);
    match reply {
      case None => Flat5(tag, id, U64(time), Prefixed(content), [0]);
      case Some(r) =>
        Flat5(tag, id, U64(time), Prefixed(content), [1] + (r.0 + r.1));
        Flat4(tag + id + U64(time) + Prefixed(content), [1], r.0, r.1);
    }
  }

  lemma ProfileExactly(version: nat, name: Bytes, bio: Bytes)
    ensures Payload(Profile(version, name, bio))
      == Ascii("freebird-profile-v1") + U32(version) + U32(|name|) + name + U32(|bio|) + bio
  {
    hide Ascii, U32, U64, Le, Prefixed;
    var tag := Ascii("freebird-profile-v1");
    LeExactly(version);
    Flat4(tag, U32(version), Prefixed(name), Prefixed(bio));
    LengthFirst(tag + U32(version), name);
    LengthFirst(tag + U32(version) + Prefixed(name), bio);
  }

  lemma FollowsExactly(version: nat, keys: seq<Bytes>)
    ensures Payload(Follows(version, keys))
      == Ascii("freebird-follows-v1") + U32(version) + U32(|keys|) + Joined(keys)
  {
    hide Ascii, U32, U64, Le, Concat, Joined;
    LeExactly(version);
    LeExactly(|keys|);
    ConcatExactly(keys);
    Flat4(Ascii("freebird-follows-v1"), U32(version), U32(|keys|), Joined(keys));
  }

  lemma CellExactly(purpose: Bytes, seqNo: nat, hash: Bytes)
    ensures Payload(Cell(purpose, seqNo, hash))
      == Ascii("freebird-cell-v1") + U32(|purpose|) + purpose + U64(seqNo) + hash
  {
    hide Ascii, U32, U64, Prefixed;
    var tag := Ascii("freebird-cell-v1");
    LeExactly(seqNo);
    Flat4(tag, Prefixed(purpose), U64(seqNo), hash);
    LengthFirst(tag, purpose);
  }

  lemma ListingExactly(author: Bytes, lastActive: nat, attestationHash: Option<Bytes>)
    ensures var head := Ascii("freebird-listing-v3") + author + U64(lastActive);
      Payload(Listing(author, lastActive, attestationHash)) == match attestationHash
        case None => head + [0]
        case Some(hash) => head + [1] + hash
  {
    hide Ascii, U64;
    var tag := Ascii("freebird-listing-v3");
    LeExactly(lastActive);
    match attestationHash {
      case None => Flat4(tag, author, U64(lastActive), [0]);
      case Some(hash) => Flat5(tag, author, U64(lastActive), [1], hash);
    }
  }

  lemma PointerExactly(owner: Bytes, replier: Bytes, fp: Bytes, target: Bytes, reply: Bytes, time: nat)
    ensures Payload(Pointer(owner, replier, fp, target, reply, time))
      == Ascii("freebird-inbox-ptr-v3") + owner + replier + U32(|fp|) + fp + target + reply + U64(time)
  {
    hide Ascii, U32, U64, Prefixed;
    var tag := Ascii("freebird-inbox-ptr-v3");
    LeExactly(time);
    Flat4(Prefixed(fp), target, reply, U64(time));
    Flat4(tag, owner, replier, Prefixed(fp) + (target + (reply + U64(time))));
    Flat5(tag + owner + replier, Prefixed(fp), target, reply, U64(time));
    LengthFirst(tag + owner + replier, fp);
  }

  // Text is written one byte a character.
  lemma AsciiExactly(s: string)
    requires forall i :: 0 <= i < |s| ==> s[i] as int < 0x80
    ensures |Ascii(s)| == |s| && forall i :: 0 <= i < |s| ==> Ascii(s)[i] == s[i] as int
  {}
}
