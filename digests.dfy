/**
  The digest engine of `CommandHelper`: `hashes_for` and the `PseudoDigestCrc32`
  wrapper around `Zlib.crc32`.

  SHA-1 is a parameter of the model (any function from content to 20 bytes).
  CRC-32 is written out: it is zlib's CRC-32 (reflected polynomial 0xEDB88320,
  register complemented before and after), so that feeding a file
  chunk by chunk is proved to give the value of the whole file.
*/
module Digests {
  import opened Wrappers
  import opened Text

  // ---------------------------------------------------------------------------
  // CRC-32 as computed by zlib

  const Polynomial: bv32 := 0xEDB8_8320

  /** One shift step: shift right, and xor in the polynomial when a 1 fell out. */
  function CrcShift(c: bv32): bv32 {
    (c >> 1) ^ (Polynomial & (0 - (c & 1)))
  }

  function CrcShifts(c: bv32, k: nat): bv32
    decreases k
  {
    if k == 0 then c else CrcShifts(CrcShift(c), k - 1)
  }

  /** One byte through the register: xor it in, then eight shift steps. */
  function CrcByte(c: bv32, b: byte): bv32 {
    CrcShifts(c ^ (b as bv32), 8)
  }

  /** The shift register after absorbing `buf`, without pre- and post-inversion. */
  function CrcRegister(c: bv32, buf: seq<byte>): bv32
    decreases buf
  {
    if buf == [] then c else CrcRegister(CrcByte(c, buf[0]), buf[1..])
  }

  /** `Zlib.crc32(buf, crc)`: continue the checksum `crc` over `buf`. */
  function ZlibCrc32(buf: seq<byte>, crc: bv32): bv32 {
    !CrcRegister(!crc, buf)
  }

  lemma {:induction false} CrcRegisterAppend(c: bv32, a: seq<byte>, b: seq<byte>)
    ensures CrcRegister(c, a + b) == CrcRegister(CrcRegister(c, a), b)
    decreases a
  {
    if a == [] {
      assert a + b == b;
    } else {
      assert (a + b)[0] == a[0] && (a + b)[1..] == a[1..] + b;
      CrcRegisterAppend(CrcByte(c, a[0]), a[1..], b);
    }
  }

  /** Continuing from the complement of a register continues that register. */
  lemma ResumeRegister(r: bv32, b: seq<byte>)
    ensures ZlibCrc32(b, !r) == !CrcRegister(r, b)
  {
    assert !!r == r;
  }

  /** Continuing a checksum over `b` gives the checksum of `a + b`. */
  lemma ZlibCrc32Chains(a: seq<byte>, b: seq<byte>, crc: bv32)
    ensures ZlibCrc32(b, ZlibCrc32(a, crc)) == ZlibCrc32(a + b, crc)
  {
    var r := CrcRegister(!crc, a);
    assert ZlibCrc32(a, crc) == !r;
    ResumeRegister(r, b);
    CrcRegisterAppend(!crc, a, b);
  }

  /** `[v].pack("N")`: the 32-bit value as four bytes, most significant first. */
  function PackN(v: bv32): (bs: seq<byte>)
    ensures |bs| == 4 && BytesValue(bs) == v as int
  {
    PackInt(v as int)
  }

  function PackInt(n: nat): (bs: seq<byte>)
    requires n < 0x1_0000_0000
    ensures |bs| == 4 && BytesValue(bs) == n
  {
    var a, b, c, d := n / 0x100_0000, n / 0x1_0000 % 256, n / 256 % 256, n % 256;
    BytesValueOfFour(a, b, c, d);
    assert n / 0x1_0000 == 256 * a + b;
    assert n / 256 == 256 * (n / 0x1_0000) + c;
    [a, b, c, d]
  }

  lemma BytesValueOfFour(a: byte, b: byte, c: byte, d: byte)
    ensures BytesValue([a, b, c, d]) == ((a * 256 + b) * 256 + c) * 256 + d
  {
    assert [a][..0] == [];
    assert BytesValue([a]) == a;
    assert [a, b][..1] == [a];
    assert BytesValue([a, b]) == a * 256 + b;
    assert [a, b, c][..2] == [a, b];
    assert BytesValue([a, b, c]) == (a * 256 + b) * 256 + c;
    assert [a, b, c, d][..3] == [a, b, c];
  }

  // ---------------------------------------------------------------------------
  // Digest objects

  /** The algorithm names `hashes_for` is called with (`:crc32`, `:sha1`, or another symbol). */
  datatype DigestName = Crc32 | Sha1 | Unsupported(symbol: string)

  type Digest20 = s: seq<byte> | |s| == 20 witness seq(20, _ => 0)

  /** `Digest::SHA1` over a whole content; left abstract. */
  type Sha1Function = seq<byte> -> Digest20

  /**
    The state of one digest object between `update` calls: the `@value` of a
    `PseudoDigestCrc32`, or the bytes a `Digest::SHA1` has absorbed so far.
  */
  datatype DigestState = Crc32State(value: bv32) | Sha1State(fed: seq<byte>)
  {
    /** `digest.update(buf)` */
    function Update(buf: seq<byte>): DigestState {
      match this
      case Crc32State(v) => Crc32State(ZlibCrc32(buf, v))
      case Sha1State(f) => Sha1State(f + buf)
    }

    /** `digest.digest`: the raw digest bytes. */
    function Digest(sha1: Sha1Function): seq<byte> {
      match this
      case Crc32State(v) => PackN(v)
      case Sha1State(f) => sha1(f)
    }
  }

  /** A fresh digest object: `PseudoDigestCrc32.new` starts at `Zlib.crc32()`, which is 0. */
  function Initial(name: DigestName): DigestState
    requires !name.Unsupported?
  {
    if name == Crc32 then Crc32State(0) else Sha1State([])
  }

  /** Two updates in a row have the effect of one update with both buffers. */
  lemma UpdateChains(st: DigestState, a: seq<byte>, b: seq<byte>)
    ensures st.Update(a).Update(b) == st.Update(a + b)
  {
    match st
    case Crc32State(v) => ZlibCrc32Chains(a, b, v);
    case Sha1State(f) => assert (f + a) + b == f + (a + b);
  }

  /** A fresh digest object fed `data` yields the digest of `data`. */
  lemma FedDigest(name: DigestName, data: seq<byte>, sha1: Sha1Function)
    requires !name.Unsupported?
    ensures Initial(name).Update(data).Digest(sha1) == DigestOf(name, data, sha1)
  {
    assert [] + data == data;
  }

  /** What a digest object yields once it has absorbed all of `data`. */
  function DigestOf(name: DigestName, data: seq<byte>, sha1: Sha1Function): seq<byte>
    requires !name.Unsupported?
  {
    if name == Crc32 then PackN(ZlibCrc32(data, 0)) else sha1(data)
  }

  /** The hex string `hashes_for` returns for one algorithm. */
  function HexDigest(name: DigestName, data: seq<byte>, sha1: Sha1Function): string
    requires !name.Unsupported?
  {
    Hex(DigestOf(name, data, sha1))
  }

  /**
    A CRC-32 is rendered as 8 lowercase hex digits whose value is the checksum;
    a SHA-1 as the 40 lowercase hex digits of its 20 bytes.
  */
  lemma HexDigestShape(name: DigestName, data: seq<byte>, sha1: Sha1Function)
    requires !name.Unsupported?
    ensures AllLowerHex(HexDigest(name, data, sha1))
    ensures |HexDigest(name, data, sha1)| == if name == Crc32 then 8 else 40
    ensures name == Crc32 ==> HexValue(HexDigest(name, data, sha1)) == ZlibCrc32(data, 0) as int
  {
    if name == Crc32 {
      HexValueOfHex(PackN(ZlibCrc32(data, 0)));
    }
  }

  predicate AllSupported(names: seq<DigestName>) {
    forall k :: 0 <= k < |names| ==> !names[k].Unsupported?
  }

  /** The first name `hashes_for` cannot map to a digest object. */
  function FirstUnsupported(names: seq<DigestName>): string
    requires !AllSupported(names)
  {
    if names[0].Unsupported? then names[0].symbol else FirstUnsupported(names[1..])
  }

  lemma {:induction false} FirstUnsupportedAt(names: seq<DigestName>, k: nat)
    requires k < |names| && names[k].Unsupported?
    requires forall j :: 0 <= j < k ==> !names[j].Unsupported?
    ensures !AllSupported(names) && FirstUnsupported(names) == names[k].symbol
  {
    if k > 0 {
      FirstUnsupportedAt(names[1..], k - 1);
    }
  }

  /** `8*1024*1024`: the size of the reads `hashes_for` makes. */
  const ChunkSize: nat := 8 * 1024 * 1024

  /** One `update(buf)` on every digest object, in place. */
  method FeedAll(digests: array<DigestState>, buf: seq<byte>)
    modifies digests
    ensures forall j :: 0 <= j < digests.Length ==> digests[j] == old(digests[j]).Update(buf)
  {
    var i := 0;
    while i < digests.Length
      invariant 0 <= i <= digests.Length
      invariant forall j :: 0 <= j < i ==> digests[j] == old(digests[j]).Update(buf)
      invariant forall j :: i <= j < digests.Length ==> digests[j] == old(digests[j])
    {
      digests[i] := digests[i].Update(buf);
      i := i + 1;
    }
  }

  /** `hash_names.map`: one fresh digest object per name; an unknown name raises. */
  method NewDigests(names: seq<DigestName>) returns (r: Result<array<DigestState>>)
    ensures !AllSupported(names) ==> r == Err(UnknownDigest(FirstUnsupported(names)))
    ensures AllSupported(names) ==>
      r.Ok? && fresh(r.value) && r.value.Length == |names| &&
      forall j :: 0 <= j < |names| ==> r.value[j] == Initial(names[j])
  {
    var digests := new DigestState[|names|];
    var k := 0;
    while k < |names|
      invariant 0 <= k <= |names|
      invariant forall j :: 0 <= j < k ==> !names[j].Unsupported? && digests[j] == Initial(names[j])
    {
      if names[k].Unsupported? {
        FirstUnsupportedAt(names, k);
        return Err(UnknownDigest(names[k].symbol));
      }
      digests[k] := Initial(names[k]);
      k := k + 1;
    }
    return Ok(digests);
  }

  /** `until io.eof?`: read the content chunk by chunk and feed each chunk to every digest. */
  method FeedFile(digests: array<DigestState>, names: seq<DigestName>, data: seq<byte>)
    requires AllSupported(names) && digests.Length == |names|
    requires forall j :: 0 <= j < |names| ==> digests[j] == Initial(names[j])
    modifies digests
    ensures forall j :: 0 <= j < |names| ==> digests[j] == Initial(names[j]).Update(data)
  {
    var pos := 0;
    while pos < |data|
      invariant 0 <= pos <= |data|
      invariant forall j :: 0 <= j < |names| ==> digests[j] == Initial(names[j]).Update(data[..pos])
    {
      var end := if |data| - pos < ChunkSize then |data| else pos + ChunkSize;
      var buf := data[pos..end];
      FeedAll(digests, buf);
      assert data[..pos] + buf == data[..end];
      forall j | 0 <= j < |names|
        ensures digests[j] == Initial(names[j]).Update(data[..end])
      {
        UpdateChains(Initial(names[j]), data[..pos], buf);
      }
      pos := end;
    }
    assert data[..|data|] == data;
  }

  /** `digests.map { |digest| Digest.hexencode(digest.digest) }` */
  method HexDigests(digests: array<DigestState>, names: seq<DigestName>, data: seq<byte>,
                    sha1: Sha1Function) returns (hexes: seq<string>)
    requires AllSupported(names) && digests.Length == |names|
    requires forall j :: 0 <= j < |names| ==> digests[j] == Initial(names[j]).Update(data)
    ensures |hexes| == |names|
    ensures forall k :: 0 <= k < |names| ==> hexes[k] == HexDigest(names[k], data, sha1)
  {
    hexes := [];
    var j := 0;
    while j < |names|
      invariant 0 <= j <= |names| && |hexes| == j
      invariant forall k :: 0 <= k < j ==> hexes[k] == HexDigest(names[k], data, sha1)
    {
      var hex := Hex(digests[j].Digest(sha1));
      FedDigest(names[j], data, sha1);
      hexes := hexes + [hex];
      j := j + 1;
    }
  }

  /**
    `hashes_for(filename, hash_names)`: one lowercase hex digest per requested
    name, in the order requested. An unknown name raises before the file is
    looked at; a missing file raises when it is opened.
  */
  method HashesFor(files: map<string, seq<byte>>, filename: string, names: seq<DigestName>,
                   sha1: Sha1Function) returns (r: Result<seq<string>>)
    ensures !AllSupported(names) ==> r == Err(UnknownDigest(FirstUnsupported(names)))
    ensures AllSupported(names) && filename !in files ==> r == Err(FileNotFound(filename))
    ensures AllSupported(names) && filename in files ==>
      r.Ok? && |r.value| == |names| &&
      forall k :: 0 <= k < |names| ==> r.value[k] == HexDigest(names[k], files[filename], sha1)
  {
    var created := NewDigests(names);
    if created.Err? {
      return Err(created.error);
    }
    var digests := created.value;
    if filename !in files {
      return Err(FileNotFound(filename));
    }
    FeedFile(digests, names, files[filename]);
    var hexes := HexDigests(digests, names, files[filename], sha1);
    return Ok(hexes);
  }
}
