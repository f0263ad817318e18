/** Little-endian integers and fixed layouts of consecutive fields. */
module ByteFields {
  import opened Basics

  function Pow256(n: nat): nat {
    if n == 0 then 1 else 256 * Pow256(n - 1)
  }

  /** The low `n` bytes of `v`, least significant first. */
  function Le(v: nat, n: nat): (bytes: seq<u8>)
    ensures |bytes| == n
    decreases n
  {
    if n == 0 then [] else [v % 256] + Le(v / 256, n - 1)
  }

  function Value(bytes: seq<u8>): nat {
    if bytes == [] then 0 else bytes[0] + 256 * Value(bytes[1..])
  }

  lemma {:induction false} ValueBound(bytes: seq<u8>)
    ensures Value(bytes) < Pow256(|bytes|)
  {
    if bytes != [] {
      ValueBound(bytes[1..]);
    }
  }

  lemma {:induction false} ValueOfLe(v: nat, n: nat)
    requires v < Pow256(n)
    ensures Value(Le(v, n)) == v
    decreases n
  {
    if n > 0 {
      ValueOfLe(v / 256, n - 1);
      assert Le(v, n)[1..] == Le(v / 256, n - 1);
    }
  }

  lemma {:induction false} LeOfValue(bytes: seq<u8>)
    ensures Le(Value(bytes), |bytes|) == bytes
  {
    if bytes != [] {
      var rest := Value(bytes[1..]);
      assert (bytes[0] + 256 * rest) % 256 == bytes[0] && (bytes[0] + 256 * rest) / 256 == rest;
      LeOfValue(bytes[1..]);
    }
  }

  lemma Limits()
    ensures Pow256(4) == 0x1_0000_0000 && Pow256(8) == 0x1_0000_0000_0000_0000
  {
    assert Pow256(1) == 256 && Pow256(2) == 0x1_0000 && Pow256(3) == 0x100_0000 && Pow256(4) == 0x1_0000_0000;
    assert Pow256(5) == 0x100_0000_0000 && Pow256(6) == 0x1_0000_0000_0000 && Pow256(7) == 0x100_0000_0000_0000;
  }

  // ---- layouts --------------------------------------------------------------------------------------

  function Flatten(fields: seq<seq<u8>>): seq<u8> {
    if fields == [] then [] else fields[0] + Flatten(fields[1..])
  }

  function Total(widths: seq<nat>): nat {
    if widths == [] then 0 else widths[0] + Total(widths[1..])
  }

  predicate Fits(fields: seq<seq<u8>>, widths: seq<nat>) {
    |fields| == |widths| && forall i :: 0 <= i < |fields| ==> |fields[i]| == widths[i]
  }

  /** Cuts a message into its fields. */
  function Split(bytes: seq<u8>, widths: seq<nat>): (fields: seq<seq<u8>>)
    requires |bytes| == Total(widths)
    ensures Fits(fields, widths)
    decreases |widths|
  {
    if widths == [] then [] else [bytes[..widths[0]]] + Split(bytes[widths[0]..], widths[1..])
  }

  lemma {:induction false} FlattenLength(fields: seq<seq<u8>>, widths: seq<nat>)
    requires Fits(fields, widths)
    ensures |Flatten(fields)| == Total(widths)
    decreases |fields|
  {
    if fields != [] {
      FlattenLength(fields[1..], widths[1..]);
    }
  }

  lemma {:induction false} SplitOfFlatten(fields: seq<seq<u8>>, widths: seq<nat>)
    requires Fits(fields, widths)
    ensures |Flatten(fields)| == Total(widths) && Split(Flatten(fields), widths) == fields
    decreases |fields|
  {
    FlattenLength(fields, widths);
    if fields != [] {
      var bytes := Flatten(fields);
      assert bytes[..widths[0]] == fields[0] && bytes[widths[0]..] == Flatten(fields[1..]);
      SplitOfFlatten(fields[1..], widths[1..]);
      assert fields == [fields[0]] + fields[1..];
    }
  }

  lemma {:induction false} FlattenOfSplit(bytes: seq<u8>, widths: seq<nat>)
    requires |bytes| == Total(widths)
    ensures Flatten(Split(bytes, widths)) == bytes
    decreases |widths|
  {
    if widths != [] {
      FlattenOfSplit(bytes[widths[0]..], widths[1..]);
      var fields := Split(bytes, widths);
      assert fields[1..] == Split(bytes[widths[0]..], widths[1..]);
    }
  }

  lemma {:induction false} FlattenSnoc(fields: seq<seq<u8>>, field: seq<u8>)
    ensures Flatten(fields + [field]) == Flatten(fields) + field
  {
    if fields == [] {
      assert fields + [field] == [field];
      assert Flatten([field]) == field + Flatten([]);
    } else {
      FlattenSnoc(fields[1..], field);
      assert (fields + [field])[1..] == fields[1..] + [field];
      assert Flatten(fields + [field]) == fields[0] + (Flatten(fields[1..]) + field);
    }
  }
}

/** The 160-byte configuration message. */
module SessionCodec {
  import opened Basics
  import opened ByteFields
  import opened Sessions

  const WIRE_SIZE: nat := 160
  const MAGIC_1: u32 := 0x31535646
  const MAGIC_2: u32 := 0x32535646
  const PADDING: nat := 48

  function Magic(version: u32): u32 {
    if version == VERSION_1 then MAGIC_1 else MAGIC_2
  }

  /** Magic, version, two identities, generation, ten words, epoch, four words, zero padding. */
  function Widths(): seq<nat> {
    [4, 4, 16, 16, 8, 4, 4, 4, 4, 4, 4, 4, 4, 4, 4, 8, 4, 4, 4, 4, PADDING]
  }

  lemma WidthsTotal()
    ensures |Widths()| == 21 && Total(Widths()) == WIRE_SIZE
  {
    hide Total;
    TotalConcat([4, 4, 16, 16, 8], [4, 4, 4, 4, 4, 4, 4, 4, 4, 4, 8, 4, 4, 4, 4, PADDING]);
    TotalConcat([4, 4, 4, 4, 4], [4, 4, 4, 4, 4, 8, 4, 4, 4, 4, PADDING]);
    TotalConcat([4, 4, 4, 4, 4], [8, 4, 4, 4, 4, PADDING]);
    assert [4, 4, 16, 16, 8] + [4, 4, 4, 4, 4, 4, 4, 4, 4, 4, 8, 4, 4, 4, 4, PADDING] == Widths();
    assert [4, 4, 4, 4, 4] + [4, 4, 4, 4, 4, 8, 4, 4, 4, 4, PADDING]
      == [4, 4, 4, 4, 4, 4, 4, 4, 4, 4, 8, 4, 4, 4, 4, PADDING];
    assert [4, 4, 4, 4, 4] + [8, 4, 4, 4, 4, PADDING] == [4, 4, 4, 4, 4, 8, 4, 4, 4, 4, PADDING];
    Five(4, 4, 16, 16, 8);
    Five(4, 4, 4, 4, 4);
    TotalConcat([8, 4, 4, 4, 4], [PADDING]);
    assert [8, 4, 4, 4, 4] + [PADDING] == [8, 4, 4, 4, 4, PADDING];
    Five(8, 4, 4, 4, 4);
    One(PADDING);
  }

  lemma One(a: nat)
    ensures Total([a]) == a
  {
    assert [a][1..] == [];
  }

  lemma TotalCons(a: nat, rest: seq<nat>)
    ensures Total([a] + rest) == a + Total(rest)
  {
    assert ([a] + rest)[1..] == rest;
  }

  lemma Five(a: nat, b: nat, c: nat, d: nat, e: nat)
    ensures Total([a, b, c, d, e]) == a + b + c + d + e
  {
    hide Total;
    One(e);
    TotalCons(d, [e]);
    TotalCons(c, [d, e]);
    TotalCons(b, [c, d, e]);
    TotalCons(a, [b, c, d, e]);
    assert [d] + [e] == [d, e] && [c] + [d, e] == [c, d, e];
    assert [b] + [c, d, e] == [b, c, d, e] && [a] + [b, c, d, e] == [a, b, c, d, e];
  }

  lemma {:induction false} TotalConcat(a: seq<nat>, b: seq<nat>)
    ensures Total(a + b) == Total(a) + Total(b)
  {
    if a == [] {
      assert a + b == b;
    } else {
      TotalConcat(a[1..], b);
      assert (a + b)[1..] == a[1..] + b;
    }
  }

  function Zeros(n: nat): (z: seq<u8>)
    ensures |z| == n && forall i :: 0 <= i < n ==> z[i] == 0
  {
    seq(n, _ => 0)
  }

  function Fields(c: Config): (fields: seq<seq<u8>>)
    requires c.epochNs >= 0
    ensures Fits(fields, Widths())
  {
    hide Le;
    [Le(Magic(c.version), 4), Le(c.version, 4), c.sessionId, c.clockId, Le(c.generation, 8),
     Le(c.videoTrack, 4), Le(c.audioTrack, 4),
     Le(c.video.format, 4), Le(c.video.width, 4), Le(c.video.height, 4), Le(c.video.fpsNum, 4), Le(c.video.fpsDen, 4),
     Le(c.audio.pcm, 4), Le(c.audio.rate, 4), Le(c.audio.layout, 4), Le(c.epochNs, 8),
     Le(c.videoQueueFrames, 4), Le(c.audioQueueMs, 4), Le(c.connectTimeoutMs, 4), Le(c.idleTimeoutMs, 4),
       Zeros(PADDING)]
  }

  function Encoded(c: Config): seq<u8>
    requires c.epochNs >= 0
  {
    Flatten(Fields(c))
  }

  function Word(field: seq<u8>): u32
    requires |field| == 4
  {
    ValueBound(field);
    Limits();
    Value(field)
  }

  function Long(field: seq<u8>): u64
    requires |field| == 8
  {
    ValueBound(field);
    Limits();
    Value(field)
  }

  predicate AllZero(bytes: seq<u8>) {
    forall i :: 0 <= i < |bytes| ==> bytes[i] == 0
  }

  function FromFields(f: seq<seq<u8>>): Config
    requires Fits(f, Widths()) && Long(f[15]) <= I64_MAX
  {
    Config(Word(f[1]), f[2], f[3], Long(f[4]), Word(f[5]), Word(f[6]),
           VideoFormat(Word(f[7]), Word(f[8]), Word(f[9]), Word(f[10]), Word(f[11])),
           AudioFormat(Word(f[12]), Word(f[13]), Word(f[14])), Long(f[15]),
           Word(f[16]), Word(f[17]), Word(f[18]), Word(f[19]))
  }

  function FieldsResult(f: seq<seq<u8>>): (e: SessionResult)
    requires Fits(f, Widths())
    ensures e == Ok ==> Long(f[15]) <= I64_MAX
  {
    if Word(f[0]) != MAGIC_1 && Word(f[0]) != MAGIC_2 then Invalid
    else if !VersionKnown(Word(f[1])) || Word(f[0]) != Magic(Word(f[1])) then VersionError
    else if Long(f[15]) > I64_MAX then TimeRange
    else if !AllZero(f[20]) then Invalid
    else Validate(FromFields(f))
  }

  /** A message of the right size, cut into its fields. */
  function Cut(bytes: seq<u8>): (fields: seq<seq<u8>>)
    requires |bytes| == WIRE_SIZE
    ensures Fits(fields, Widths())
  {
    WidthsTotal();
    Split(bytes, Widths())
  }

  function DecodeResult(bytes: seq<u8>): (e: SessionResult)
    ensures e == Ok ==> |bytes| == WIRE_SIZE && FieldsResult(Cut(bytes)) == Ok
  {
    if |bytes| != WIRE_SIZE then Invalid else FieldsResult(Cut(bytes))
  }

  function Decoded(bytes: seq<u8>): Config
    requires DecodeResult(bytes) == Ok
  {
    FromFields(Cut(bytes))
  }

  lemma WordOfLe(v: u32)
    ensures Word(Le(v, 4)) == v
  {
    Limits();
    ValueOfLe(v, 4);
  }

  lemma LongOfLe(v: u64)
    ensures Long(Le(v, 8)) == v
  {
    Limits();
    ValueOfLe(v, 8);
  }

  lemma FieldsReadBack(c: Config)
    requires c.epochNs >= 0
    ensures var f := Fields(c); Long(f[15]) <= I64_MAX && FromFields(f) == c
    ensures Word(Fields(c)[0]) == Magic(c.version) && Word(Fields(c)[1]) == c.version
  {
    hide Le, Word, Long, Magic;
    WordOfLe(Magic(c.version));
    WordOfLe(c.version);
    LongOfLe(c.generation);
    WordOfLe(c.videoTrack);
    WordOfLe(c.audioTrack);
    WordOfLe(c.video.format);
    WordOfLe(c.video.width);
    WordOfLe(c.video.height);
    WordOfLe(c.video.fpsNum);
    WordOfLe(c.video.fpsDen);
    WordOfLe(c.audio.pcm);
    WordOfLe(c.audio.rate);
    WordOfLe(c.audio.layout);
    LongOfLe(c.epochNs);
    WordOfLe(c.videoQueueFrames);
    WordOfLe(c.audioQueueMs);
    WordOfLe(c.connectTimeoutMs);
    WordOfLe(c.idleTimeoutMs);
  }

  lemma ValidIsEncodable(c: Config)
    requires Validate(c) == Ok
    ensures c.epochNs >= 0 && VersionKnown(c.version)
  {
  }

  /** Every valid configuration survives the wire. */
  lemma DecodeEncoded(c: Config)
    requires Validate(c) == Ok
    ensures c.epochNs >= 0 && DecodeResult(Encoded(c)) == Ok && Decoded(Encoded(c)) == c
  {
    hide Validate, FromFields, Fields, Split, Flatten, Total, Word, Long;
    ValidIsEncodable(c);
    WidthsTotal();
    SplitOfFlatten(Fields(c), Widths());
    FieldsReadBack(c);
    PaddingIsZero(c);
  }

  lemma PaddingIsZero(c: Config)
    requires c.epochNs >= 0
    ensures AllZero(Fields(c)[20])
  {
  }

  lemma WordWritten(field: seq<u8>)
    requires |field| == 4
    ensures Le(Word(field), 4) == field
  {
    LeOfValue(field);
  }

  lemma LongWritten(field: seq<u8>)
    requires |field| == 8
    ensures Le(Long(field), 8) == field
  {
    LeOfValue(field);
  }

  lemma FieldsWrittenBack(f: seq<seq<u8>>)
    requires Fits(f, Widths()) && FieldsResult(f) == Ok
    ensures FromFields(f).epochNs >= 0 && Fields(FromFields(f)) == f
  {
    hide Le, Word, Long, Validate;
    var c := FromFields(f);
    forall i | 0 <= i < 21 && i != 2 && i != 3 && i != 4 && i != 15 && i != 20
      ensures |f[i]| == 4 && Le(Word(f[i]), 4) == f[i] {
      WordWritten(f[i]);
    }
    LongWritten(f[4]);
    LongWritten(f[15]);
    assert f[20] == Zeros(PADDING);
    EachField(f);
  }

  /** The fields one by one. */
  lemma EachField(f: seq<seq<u8>>)
    requires Fits(f, Widths()) && Long(f[15]) <= I64_MAX && Word(f[0]) == Magic(Word(f[1])) && f[20] == Zeros(PADDING)
    requires Le(Long(f[4]), 8) == f[4] && Le(Long(f[15]), 8) == f[15]
    requires forall i :: 0 <= i < 21 && i != 2 && i != 3 && i != 4 && i != 15 && i != 20 ==>
      |f[i]| == 4 && Le(Word(f[i]), 4) == f[i]
    ensures Fields(FromFields(f)) == f
  {
    hide Le, Word, Long, Magic;
    var g := Fields(FromFields(f));
    assert g[0] == f[0] && g[1] == f[1] && g[2] == f[2] && g[3] == f[3] && g[4] == f[4] && g[5] == f[5] && g[6] == f[6];
    assert g[7] == f[7] && g[8] == f[8] && g[9] == f[9] && g[10] == f[10] && g[11] == f[11] && g[12] == f[12]
      && g[13] == f[13];
    assert g[14] == f[14] && g[15] == f[15] && g[16] == f[16] && g[17] == f[17] && g[18] == f[18] && g[19] == f[19]
      && g[20] == f[20];
    assert |g| == |f| == 21;
  }

  /** Every accepted message is the encoding of exactly one valid configuration. */
  lemma EncodeDecoded(bytes: seq<u8>)
    requires DecodeResult(bytes) == Ok
    ensures Validate(Decoded(bytes)) == Ok && Decoded(bytes).epochNs >= 0 && Encoded(Decoded(bytes)) == bytes
  {
    hide Validate, FromFields, Fields, Split, Flatten, Total, Magic, Word, Long;
    WidthsTotal();
    FieldsWrittenBack(Cut(bytes));
    FlattenOfSplit(bytes, Widths());
  }

  /** Comparing messages is comparing configurations. */
  lemma EncodedIsInjective(a: Config, b: Config)
    requires Validate(a) == Ok && Validate(b) == Ok
    ensures a.epochNs >= 0 && b.epochNs >= 0 && (Encoded(a) == Encoded(b) <==> a == b)
  {
    hide Validate, Encoded, DecodeResult, Decoded;
    DecodeEncoded(a);
    DecodeEncoded(b);
  }

  // ---- the buffers ----------------------------------------------------------------------------------

  /** Copies one field at the write pointer. */
  method WriteField(data: array<u8>, p: nat, field: seq<u8>)
    requires p + |field| <= data.Length
    modifies data
    ensures data[..] == old(data[..p]) + field + old(data[p + |field|..])
  {
    var i := 0;
    while i < |field|
      invariant i <= |field|
      invariant forall j :: 0 <= j < i ==> data[p + j] == field[j]
      invariant forall j :: 0 <= j < data.Length && !(p <= j < p + i) ==> data[j] == old(data[j])
    {
      data[p + i] := field[i];
      i := i + 1;
    }
    assert data[p..p + |field|] == field;
    assert data[..] == data[..p] + data[p..p + |field|] + data[p + |field|..];
  }

  method WriteFields(data: array<u8>, fields: seq<seq<u8>>)
    requires |Flatten(fields)| == data.Length
    modifies data
    ensures data[..] == Flatten(fields)
  {
    hide Flatten;
    FlattenNothing();
    var p, k := 0, 0;
    while k < |fields|
      invariant k <= |fields| && p == |Flatten(fields[..k])| <= data.Length && data[..p] == Flatten(fields[..k])
    {
      FlattenSnoc(fields[..k], fields[k]);
      assert fields[..k] + [fields[k]] == fields[..k + 1];
      FlattenPrefix(fields, k + 1);
      WriteField(data, p, fields[k]);
      p, k := p + |fields[k]|, k + 1;
    }
    assert fields[..k] == fields;
  }

  lemma FlattenNothing()
    ensures Flatten([]) == []
  {
  }

  lemma {:induction false} FlattenPrefix(fields: seq<seq<u8>>, k: nat)
    requires k <= |fields|
    ensures |Flatten(fields[..k])| <= |Flatten(fields)|
    decreases |fields| - k
  {
    if k == |fields| {
      assert fields[..k] == fields;
    } else {
      FlattenPrefix(fields, k + 1);
      FlattenSnoc(fields[..k], fields[k]);
      assert fields[..k] + [fields[k]] == fields[..k + 1];
    }
  }

  /** A refused configuration leaves the buffer as it was. */
  method Encode(c: Config, data: array<u8>) returns (result: SessionResult)
    modifies data
    ensures result == if data.Length != WIRE_SIZE then Invalid else Validate(c)
    ensures result == Ok ==> c.epochNs >= 0 && data[..] == Encoded(c)
    ensures result != Ok ==> data[..] == old(data[..])
  {
    hide Validate, Fields, Flatten, Total;
    if data.Length != WIRE_SIZE {
      return Invalid;
    }
    result := Validate(c);
    if result != Ok {
      return;
    }
    ValidIsEncodable(c);
    WidthsTotal();
    FlattenLength(Fields(c), Widths());
    WriteFields(data, Fields(c));
  }

  method Decode(data: array<u8>) returns (result: SessionResult, out: Option<Config>)
    ensures result == DecodeResult(data[..])
    ensures out == if result == Ok then Some(Decoded(data[..])) else None
  {
    hide Validate, Cut, Word, Long;
    out := None;
    if data.Length != WIRE_SIZE {
      return Invalid, out;
    }
    var f := Cut(data[..]);
    var magic, version := Word(f[0]), Word(f[1]);
    if magic != MAGIC_1 && magic != MAGIC_2 {
      return Invalid, out;
    }
    if !VersionKnown(version) || magic != Magic(version) {
      return VersionError, out;
    }
    if Long(f[15]) > I64_MAX {
      return TimeRange, out;
    }
    var p := 0;
    while p < PADDING
      invariant p <= PADDING && AllZero(f[20][..p])
    {
      if f[20][p] != 0 {
        return Invalid, out;
      }
      p := p + 1;
    }
    assert f[20][..p] == f[20];
    var c := FromFields(f);
    result := Validate(c);
    if result == Ok {
      out := Some(c);
    }
  }
}
