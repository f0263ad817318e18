/** Little-endian words of four bytes. */
module Words {
  function Byte0(v: bv32): bv8 {
    (v & 0xFF) as bv8
  }

  function Byte1(v: bv32): bv8 {
    ((v >> 8) & 0xFF) as bv8
  }

  function Byte2(v: bv32): bv8 {
    ((v >> 16) & 0xFF) as bv8
  }

  function Byte3(v: bv32): bv8 {
    ((v >> 24) & 0xFF) as bv8
  }

  function Word(a: bv8, b: bv8, c: bv8, d: bv8): bv32 {
    (a as bv32) | ((b as bv32) << 8) | ((c as bv32) << 16) | ((d as bv32) << 24)
  }

  lemma WordOfBytes(v: bv32)
    ensures Word(Byte0(v), Byte1(v), Byte2(v), Byte3(v)) == v
  {
  }

  lemma BytesOfWord(a: bv8, b: bv8, c: bv8, d: bv8)
    ensures var v := Word(a, b, c, d); Byte0(v) == a && Byte1(v) == b && Byte2(v) == c && Byte3(v) == d
  {
  }

  function Put(v: bv32): (bytes: seq<bv8>)
    ensures |bytes| == 4
  {
    [Byte0(v), Byte1(v), Byte2(v), Byte3(v)]
  }

  function Get(bytes: seq<bv8>, at: nat): bv32
    requires at + 4 <= |bytes|
  {
    Word(bytes[at], bytes[at + 1], bytes[at + 2], bytes[at + 3])
  }

  /** Several words in a row. */
  function PutAll(vs: seq<bv32>): (bytes: seq<bv8>)
    ensures |bytes| == 4 * |vs|
  {
    if vs == [] then [] else Put(vs[0]) + PutAll(vs[1..])
  }

  function GetAll(bytes: seq<bv8>, n: nat): (vs: seq<bv32>)
    requires 4 * n <= |bytes|
    ensures |vs| == n
    ensures forall i :: 0 <= i < n ==> vs[i] == Get(bytes, 4 * i)
  {
    seq(n, i requires 0 <= i < n => Get(bytes, 4 * i))
  }

  /** A word written is the word read, and reading further on is reading behind it. */
  lemma PutGet(v: bv32, tail: seq<bv8>)
    ensures Get(Put(v) + tail, 0) == v
    ensures forall at: nat :: at + 4 <= |tail| ==> Get(Put(v) + tail, at + 4) == Get(tail, at)
  {
    hide Byte0, Byte1, Byte2, Byte3, Word;
    WordOfBytes(v);
  }

  lemma GetPut(bytes: seq<bv8>)
    requires |bytes| >= 4
    ensures Put(Get(bytes, 0)) == bytes[..4]
    ensures forall at: nat :: at + 8 <= |bytes| ==> Get(bytes, at + 4) == Get(bytes[4..], at)
  {
    hide Byte0, Byte1, Byte2, Byte3, Word;
    BytesOfWord(bytes[0], bytes[1], bytes[2], bytes[3]);
  }

  lemma {:induction false} ReadBack(vs: seq<bv32>, rest: seq<bv8>)
    ensures GetAll(PutAll(vs) + rest, |vs|) == vs
  {
    hide Get, Put;
    if vs != [] {
      var bytes, tail := PutAll(vs) + rest, PutAll(vs[1..]) + rest;
      ReadBack(vs[1..], rest);
      assert bytes == Put(vs[0]) + tail;
      PutGet(vs[0], tail);
      forall i | 0 <= i < |vs| ensures Get(bytes, 4 * i) == vs[i] {
        if i > 0 {
          assert Get(bytes, 4 * (i - 1) + 4) == Get(tail, 4 * (i - 1));
          assert GetAll(tail, |vs| - 1)[i - 1] == vs[i];
        }
      }
    }
  }

  lemma {:induction false} WriteBack(bytes: seq<bv8>, n: nat)
    requires 4 * n <= |bytes|
    ensures PutAll(GetAll(bytes, n)) == bytes[..4 * n]
  {
    hide Get, Put;
    if n > 0 {
      var vs := GetAll(bytes, n);
      WriteBack(bytes[4..], n - 1);
      GetPut(bytes);
      forall i | 0 <= i < n - 1 ensures vs[1..][i] == GetAll(bytes[4..], n - 1)[i] {
        assert Get(bytes, 4 * i + 4) == Get(bytes[4..], 4 * i);
      }
      assert vs[1..] == GetAll(bytes[4..], n - 1);
      assert bytes[..4 * n] == bytes[..4] + bytes[4..][..4 * (n - 1)];
    }
  }
}

/** The 64-byte requirements message, and the agreement two ends reach by exchanging offers. */
module MemoryCodec {
  import opened Masks
  import opened MemoryPolicy
  import opened Words
  import opened Basics

  const WIRE_SIZE: nat := 64
  const MAGIC: bv32 := 0x31524D46

  function Zeros(n: nat): (z: seq<bv8>)
    ensures |z| == n && forall i :: 0 <= i < n ==> z[i] == 0
  {
    seq(n, _ => 0)
  }

  function Header(r: Requirements): seq<bv32> {
    [MAGIC, r.version, r.required, r.preferred, r.resources, r.operations]
  }

  function Encoded(r: Requirements): seq<bv8> {
    PutAll(Header(r)) + Zeros(40)
  }

  predicate AllZero(bytes: seq<bv8>) {
    forall i :: 0 <= i < |bytes| ==> bytes[i] == 0
  }

  function Read(bytes: seq<bv8>): Requirements
    requires |bytes| == WIRE_SIZE
  {
    Requirements(Get(bytes, 4), Get(bytes, 8), Get(bytes, 12), Get(bytes, 16), Get(bytes, 20), (0, 0, 0))
  }

  function DecodeResult(bytes: seq<bv8>): (e: MemoryResult)
    ensures e == Ok ==> |bytes| == WIRE_SIZE
  {
    if |bytes| != WIRE_SIZE || Get(bytes, 0) != MAGIC then Invalid
    else if Get(bytes, 4) != VERSION then VersionMismatch
    else if !AllZero(bytes[24..]) then Invalid
    else Validate(Read(bytes))
  }

  /** Every valid value survives the wire. */
  lemma DecodeEncoded(r: Requirements)
    requires Validate(r) == Ok
    ensures |Encoded(r)| == WIRE_SIZE && DecodeResult(Encoded(r)) == Ok && Read(Encoded(r)) == r
  {
    hide Word, Within, Union, PutAll;
    ReadBack(Header(r), Zeros(40));
    var bytes := Encoded(r);
    assert GetAll(bytes, 6) == Header(r);
    assert bytes[24..] == Zeros(40);
    assert Get(bytes, 0) == GetAll(bytes, 6)[0] && Get(bytes, 4) == GetAll(bytes, 6)[1]
      && Get(bytes, 8) == GetAll(bytes, 6)[2];
    assert Get(bytes, 12) == GetAll(bytes, 6)[3] && Get(bytes, 16) == GetAll(bytes, 6)[4]
      && Get(bytes, 20) == GetAll(bytes, 6)[5];
  }

  /** Every accepted wire is the encoding of exactly one valid value. */
  lemma EncodeDecoded(bytes: seq<bv8>)
    requires DecodeResult(bytes) == Ok
    ensures Validate(Read(bytes)) == Ok && Encoded(Read(bytes)) == bytes
  {
    hide Word, Within, Union, PutAll, Validate;
    WriteBack(bytes, 6);
    assert GetAll(bytes, 6) == Header(Read(bytes));
    assert bytes[24..] == Zeros(40);
    assert bytes == bytes[..24] + bytes[24..];
  }

  method PutWord(bytes: array<bv8>, at: nat, v: bv32)
    requires at + 4 <= bytes.Length
    modifies bytes
    ensures bytes[..] == old(bytes[..at]) + Put(v) + old(bytes[at + 4..])
  {
    hide Byte0, Byte1, Byte2, Byte3;
    bytes[at] := Byte0(v);
    bytes[at + 1] := Byte1(v);
    bytes[at + 2] := Byte2(v);
    bytes[at + 3] := Byte3(v);
  }

  method PutWords(bytes: array<bv8>, words: seq<bv32>)
    requires 4 * |words| <= bytes.Length
    modifies bytes
    ensures bytes[..] == PutAll(words) + old(bytes[4 * |words|..])
  {
    hide Put, PutAll;
    PutNothing();
    var at, n := 0, 0;
    while n < |words|
      invariant n <= |words| && at == 4 * n && bytes[..] == PutAll(words[..n]) + old(bytes[at..])
    {
      PutSnoc(words[..n], words[n]);
      assert words[..n] + [words[n]] == words[..n + 1];
      ghost var before := bytes[..];
      PutWord(bytes, at, words[n]);
      assert before[..at] == PutAll(words[..n]) && before[at + 4..] == old(bytes[at + 4..]);
      at, n := at + 4, n + 1;
    }
    assert words[..n] == words;
  }

  lemma PutNothing()
    ensures PutAll([]) == []
  {
  }

  /** A refused value leaves the output as it was; the whole message is staged before the output is touched. */
  method Encode(r: Requirements, data: array<bv8>) returns (result: MemoryResult)
    modifies data
    ensures result == if data.Length != WIRE_SIZE then Invalid else Validate(r)
    ensures data[..] == if result == Ok then Encoded(r) else old(data[..])
  {
    hide PutAll, Validate;
    if data.Length != WIRE_SIZE {
      return Invalid;
    }
    result := Validate(r);
    if result != Ok {
      return;
    }
    var bytes := new bv8[WIRE_SIZE](_ => 0);
    assert bytes[24..] == Zeros(40);
    PutWords(bytes, Header(r));
    forall i | 0 <= i < WIRE_SIZE {
      data[i] := bytes[i];
    }
    assert data[..] == bytes[..];
  }

  lemma {:induction false} PutSnoc(vs: seq<bv32>, v: bv32)
    ensures PutAll(vs + [v]) == PutAll(vs) + Put(v)
  {
    hide Put;
    if vs == [] {
      assert vs + [v] == [v] && PutAll([v][1..]) == [];
    } else {
      PutSnoc(vs[1..], v);
      assert (vs + [v])[1..] == vs[1..] + [v];
    }
  }

  method Decode(data: array<bv8>) returns (result: MemoryResult, out: Requirements)
    ensures result == DecodeResult(data[..])
    ensures result == Ok ==> out == Read(data[..])
  {
    hide Word, Validate;
    out := NEUTRAL;
    if data.Length != WIRE_SIZE || Get(data[..], 0) != MAGIC {
      return Invalid, out;
    }
    var r := Read(data[..]);
    if r.version != VERSION {
      return VersionMismatch, out;
    }
    var p := 24;
    while p < data.Length
      invariant 24 <= p <= data.Length && AllZero(data[24..p])
    {
      if data[p] != 0 {
        assert data[..][24..][p - 24] != 0;
        return Invalid, out;
      }
      p := p + 1;
    }
    assert data[24..p] == data[..][24..];
    result := Validate(r);
    if result == Ok {
      out := r;
    }
  }

  // ---- agreement between two ends -------------------------------------------------------------------

  /** What an end offers; the binding names the exact resource out of band. */
  datatype Offer = Offer(requirements: Requirements, path: Path, binding: seq<bv8>)

  predicate ValidOffer(o: Offer) {
    Validate(o.requirements) == Ok && ValidatePath(o.path) == Ok && |o.binding| == 32 && !AllZero(o.binding)
  }

  const OFFER_MAGIC: seq<bv8> := [0x46, 0x4C, 0x4D, 0x45, 0x4D, 0x4F, 0x46, 1]

  function Role(producer: bool): seq<bv8> {
    [if producer then 0x50 else 0x43] + Zeros(7)
  }

  function PathWords(p: Path): seq<bv32> {
    [p.version, p.resource, p.supported, p.operations]
  }

  /** Magic, role, nonce, requirements, path and binding: 160 bytes. */
  function OfferWire(o: Offer, producer: bool, nonce: seq<bv8>): seq<bv8> {
    OFFER_MAGIC + Role(producer) + nonce + Encoded(o.requirements) + PutAll(PathWords(o.path)) + o.binding
  }

  predicate OfferAccepted(w: seq<bv8>, producer: bool) {
    && |w| == 160 && w[..8] == OFFER_MAGIC && w[8..16] == Role(producer) && !AllZero(w[16..48])
    && DecodeResult(w[48..112]) == Ok && ValidOffer(OfferRead(w))
  }

  function OfferRead(w: seq<bv8>): Offer
    requires |w| == 160
  {
    Offer(Read(w[48..112]), Path(Get(w[112..128], 0), Get(w[112..128], 4), Get(w[112..128], 8), Get(w[112..128], 12),
      (0, 0, 0, 0)), w[128..])
  }

  lemma OfferRoundTrip(o: Offer, producer: bool, nonce: seq<bv8>)
    requires ValidOffer(o) && |nonce| == 32 && !AllZero(nonce)
    ensures OfferAccepted(OfferWire(o, producer, nonce), producer) && OfferRead(OfferWire(o, producer, nonce)) == o
    ensures !OfferAccepted(OfferWire(o, producer, nonce), !producer)
  {
    hide Validate, PutAll, Word, DecodeResult, Read, Encoded, Within;
    DecodeEncoded(o.requirements);
    var w, e, p := OfferWire(o, producer, nonce), Encoded(o.requirements), PutAll(PathWords(o.path));
    assert w[..8] == OFFER_MAGIC;
    assert w[8..16] == Role(producer);
    assert w[16..48] == nonce;
    assert w[48..112] == e;
    assert w[112..128] == p;
    assert w[128..] == o.binding;
    PathRoundTrip(o.path);
    assert Role(producer)[0] != Role(!producer)[0];
  }

  lemma PathRoundTrip(p: Path)
    requires ValidatePath(p) == Ok
    ensures var b := PutAll(PathWords(p));
      |b| == 16 && Path(Get(b, 0), Get(b, 4), Get(b, 8), Get(b, 12), (0, 0, 0, 0)) == p
  {
    hide PutAll, Word, Within, SingleBit;
    var b := PutAll(PathWords(p));
    ReadBack(PathWords(p), []);
    assert b + [] == b;
    assert GetAll(b, 4) == PathWords(p);
    assert Get(b, 0) == GetAll(b, 4)[0] && Get(b, 4) == GetAll(b, 4)[1] && Get(b, 8) == GetAll(b, 4)[2]
      && Get(b, 12) == GetAll(b, 4)[3];
  }

  /** The verdict an end computes from its own offer and the one it decoded. */
  ghost predicate Approves(local: Offer, candidate: Offer) {
    local.binding == candidate.binding &&
    Agreed([Endpoint(local.requirements, local.path), Endpoint(candidate.requirements, candidate.path)])
  }

  /** How an end finishes: it needs its own verdict and the peer's. */
  ghost function Finish(local: Offer, received: seq<bv8>, producer: bool, peerApproved: bool): (remote: Option<Offer>)
  {
    if OfferAccepted(received, !producer) && Approves(local, OfferRead(received)) && peerApproved
    then Some(OfferRead(received)) else None
  }

  /**
   * Both ends of an honest exchange decode the peer's very offer and reach the same verdict, so they finish together:
   * either each obtains the other's offer or neither does.
   */
  lemma MutualAgreement(p: Offer, c: Offer, pNonce: seq<bv8>, cNonce: seq<bv8>)
    requires ValidOffer(p) && ValidOffer(c) && |pNonce| == 32 && !AllZero(pNonce) && |cNonce| == 32 && !AllZero(cNonce)
    ensures Approves(p, c) == Approves(c, p)
    ensures var atProducer, atConsumer := Finish(p, OfferWire(c, false, cNonce), true, Approves(c, p)),
      Finish(c, OfferWire(p, true, pNonce), false, Approves(p, c));
      if Approves(p, c) then atProducer == Some(c) && atConsumer == Some(p) else atProducer == None == atConsumer
  {
    hide Agreed, OfferAccepted, OfferWire, OfferRead, ValidOffer;
    OfferRoundTrip(p, true, pNonce);
    OfferRoundTrip(c, false, cNonce);
    var a, b := Endpoint(p.requirements, p.path), Endpoint(c.requirements, c.path);
    PermutationInvariant([a, b], [b, a]);
  }

  // ---- allocation policy ----------------------------------------------------------------------------

  /** A downstream allocation query joins the agreed boundary as a third endpoint on the local path. */
  ghost predicate AllocationAllowed(local: Endpoint, remote: Endpoint, query: seq<bv8>) {
    DecodeResult(query) == Ok && Agreed([local, remote, Endpoint(Read(query), local.path)])
  }

  /**
   * Exactly what the query decides: the two ends agree without it, it decodes, the local path provides the resource
   * and the support it demands, and it permits both ends' operations. Its own path asks nothing new of anyone.
   */
  lemma AllocationMeaning(local: Endpoint, remote: Endpoint, query: seq<bv8>)
    ensures AllocationAllowed(local, remote, query) <==>
      && DecodeResult(query) == Ok && Agreed([local, remote])
      && Within(local.path.resource, Read(query).resources) && Within(Read(query).required, local.path.supported)
      && Within(local.path.operations, Read(query).operations) && Within(remote.path.operations, Read(query).operations)
  {
    hide Agreed, DecodeResult, Read, Validate, ValidatePath, Within;
    if DecodeResult(query) == Ok {
      var asked := Endpoint(Read(query), local.path);
      DecodedIsValid(query);
      AgreedByMembers([local, remote]);
      AgreedByMembers([local, remote, asked]);
      MembersOfPair(local, remote);
      MembersOfThree(local, remote, asked);
      AskedAmong(local, remote, asked);
    }
  }

  lemma DecodedIsValid(query: seq<bv8>)
    requires DecodeResult(query) == Ok
    ensures Validate(Read(query)) == Ok
  {
    hide Validate, Read;
  }

  lemma MembersOfPair(a: Endpoint, b: Endpoint)
    ensures Members([a, b]) == iset{a, b}
  {
    assert [a, b][0] == a && [a, b][1] == b;
  }

  lemma MembersOfThree(a: Endpoint, b: Endpoint, c: Endpoint)
    ensures Members([a, b, c]) == iset{a, b, c}
  {
    assert [a, b, c][0] == a && [a, b, c][1] == b && [a, b, c][2] == c;
  }

  /** A third endpoint that shares the first one's path. */
  lemma AskedAmong(a: Endpoint, b: Endpoint, asked: Endpoint)
    requires asked.path == a.path && Validate(asked.requirements) == Ok
    ensures AgreedAmong(iset{a, b, asked}) <==>
      && AgreedAmong(iset{a, b})
      && Within(a.path.resource, asked.requirements.resources) && Within(asked.requirements.required, a.path.supported)
      && Within(a.path.operations, asked.requirements.operations)
      && Within(b.path.operations, asked.requirements.operations)
  {
    hide Validate, ValidatePath, Within;
    var two, three := iset{a, b}, iset{a, b, asked};
    assert a in two && b in two && a in three && b in three && asked in three;
  }

  /** Allowing it never admits what the boundary alone would refuse, and the local path meets the query's demands. */
  lemma AllocationOnlyRestricts(local: Endpoint, remote: Endpoint, query: seq<bv8>)
    requires AllocationAllowed(local, remote, query)
    ensures Agreed([local, remote]) && Agreed([local])
    ensures Within(Read(query).required, local.path.supported) && Within(remote.path.operations, Read(query).operations)
  {
    hide Agreed, AllocationAllowed, DecodeResult, Read, Within;
    AllocationMeaning(local, remote, query);
    assert [local][..1] + [remote] + [local][1..] == [local, remote];
    AddingOnlyLoses([local], 1, remote);
  }
}
