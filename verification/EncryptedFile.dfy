/** The encrypted container: a 40-byte header core, its 16-byte tag, and one authenticated chunk per MiB of
    plaintext. The cipher is abstract: sealing adds a 16-byte tag and opening undoes it. */
module EncryptedFile {
  import opened Basics

  type Byte = b: int | 0 <= b < 256
  type Bytes = seq<Byte>

  const CHUNK := 1048576
  const OVERHEAD := 16
  const CORE_SIZE := 40
  const HEADER_SIZE := CORE_SIZE + OVERHEAD
  const MAX_INT64 := 0x7fff_ffff_ffff_ffff
  const MAX_UINT64 := 0xffff_ffff_ffff_ffff
  const VERSION: Byte := 1
  const MAGIC: Bytes := [0x47, 0x4f, 0x4f, 0x52, 0x55, 0x45, 0x4e, 0x43]
  const CACHE_ENTRIES := 4

  /** seal(nonce, plaintext, additional data) and open(nonce, ciphertext, additional data). */
  datatype Aead = Aead(seal: (Bytes, Bytes, Bytes) -> Bytes, open: (Bytes, Bytes, Bytes) -> Option<Bytes>)

  ghost predicate Sound(a: Aead) {
    && (forall n, p, d :: |a.seal(n, p, d)| == |p| + OVERHEAD && a.open(n, a.seal(n, p, d), d) == Some(p))
    && (forall n, c, d {:trigger a.open(n, c, d)} ::
      a.open(n, c, d).Some? ==> |a.open(n, c, d).value| + OVERHEAD == |c|)
  }

  datatype Error = InvalidFormat | Authentication | PlaintextSize | EndOfFile | NegativeOffset

  datatype Outcome<+T> = Done(value: T) | Failed(error: Error)

  // ---------------------------------------------------------------- little-endian numbers

  function Pow256(k: nat): nat { if k == 0 then 1 else 256 * Pow256(k - 1) }

  function Encode(n: nat, k: nat): (b: Bytes)
    ensures |b| == k
  {
    if k == 0 then [] else [n % 256] + Encode(n / 256, k - 1)
  }

  function Decode(b: Bytes): int {
    if b == [] then 0 else b[0] + 256 * Decode(b[1..])
  }

  lemma {:induction false} DecodeEncode(n: nat, k: nat)
    requires n < Pow256(k)
    ensures Decode(Encode(n, k)) == n
  {
    if k > 0 {
      assert n / 256 < Pow256(k - 1);
      DecodeEncode(n / 256, k - 1);
      assert Encode(n, k)[1..] == Encode(n / 256, k - 1);
    }
  }

  lemma EightBytes()
    ensures Pow256(8) == MAX_UINT64 + 1
  {
    assert Pow256(4) == 0x1_0000_0000;
    assert Pow256(5) == 256 * Pow256(4) && Pow256(6) == 256 * Pow256(5) && Pow256(7) == 256 * Pow256(6);
  }

  /** int64(u) of an unsigned 64-bit number. */
  function ToInt64(u: int): int { if u > MAX_INT64 then u - MAX_UINT64 - 1 else u }

  /** The result of signed 64-bit arithmetic whose exact value is n. */
  function Int64(n: int): int { ToInt64(n % (MAX_UINT64 + 1)) }

  /** It is the signed 64-bit number that differs from n by a multiple of 2^64. */
  lemma Int64Wraps(n: int)
    ensures -0x8000_0000_0000_0000 <= Int64(n) < 0x8000_0000_0000_0000
    ensures (n - Int64(n)) % 0x1_0000_0000_0000_0000 == 0
    ensures -0x8000_0000_0000_0000 <= n < 0x8000_0000_0000_0000 ==> Int64(n) == n
  {
    var k := n / 0x1_0000_0000_0000_0000;
    assert n - Int64(n) == 0x1_0000_0000_0000_0000 * k || n - Int64(n) == 0x1_0000_0000_0000_0000 * (k + 1);
  }

  // ---------------------------------------------------------------- layout

  function Core(size: nat, prefix: Bytes): Bytes {
    MAGIC + [VERSION] + [0, 0, 0, 0, 0, 0, 0] + Encode(size, 8) + prefix
  }

  function Nonce(prefix: Bytes, index: nat): Bytes { prefix + Encode(index, 8) }

  function ChunkAad(core: Bytes, index: nat): Bytes { core + Encode(index, 8) }

  function ChunkCount(size: int): nat {
    if size <= 0 then 0 else size / CHUNK + (if size % CHUNK != 0 then 1 else 0)
  }

  function Min(a: int, b: int): int { if a < b then a else b }

  function PlainLength(size: int, index: nat): int { Min(CHUNK, size - index * CHUNK) }

  function CipherOffset(index: nat): nat { HEADER_SIZE + index * (CHUNK + OVERHEAD) }

  /** The length of the container of a plaintext of this size. */
  function ContainerSize(size: nat): nat { HEADER_SIZE + size + ChunkCount(size) * OVERHEAD }

  function Chunk(plain: Bytes, i: nat): Bytes
    requires i < ChunkCount(|plain|)
  {
    plain[i * CHUNK..Min((i + 1) * CHUNK, |plain|)]
  }

  function SealedChunk(a: Aead, core: Bytes, prefix: Bytes, plain: Bytes, i: nat): Bytes
    requires i < ChunkCount(|plain|)
  {
    a.seal(Nonce(prefix, i), Chunk(plain, i), ChunkAad(core, i))
  }

  function SealedUpTo(a: Aead, core: Bytes, prefix: Bytes, plain: Bytes, n: nat): Bytes
    requires n <= ChunkCount(|plain|)
  {
    if n == 0 then [] else SealedUpTo(a, core, prefix, plain, n - 1) + SealedChunk(a, core, prefix, plain, n - 1)
  }

  function HeaderTag(a: Aead, core: Bytes, prefix: Bytes): Bytes { a.seal(Nonce(prefix, MAX_UINT64), [], core) }

  /** The complete container of a plaintext under one nonce prefix. */
  function Image(a: Aead, prefix: Bytes, plain: Bytes): Bytes {
    var core := Core(|plain|, prefix);
    core + HeaderTag(a, core, prefix) + SealedUpTo(a, core, prefix, plain, ChunkCount(|plain|))
  }

  /** The chunk ranges tile the file after the header without gap or overlap, and every chunk holds plaintext. */
  lemma ChunksTile(size: nat, i: nat)
    requires i < ChunkCount(size)
    ensures 0 < PlainLength(size, i) <= CHUNK
    ensures CipherOffset(0) == HEADER_SIZE
    ensures CipherOffset(i) + PlainLength(size, i) + OVERHEAD ==
      if i + 1 < ChunkCount(size) then CipherOffset(i + 1) else ContainerSize(size)
  {
  }

  /** The size arithmetic of opening a file fits 64-bit signed integers, so its overflow checks never fire
      for a file that exists. */
  lemma SizesFit(size: nat, fileSize: nat)
    requires size <= fileSize <= MAX_INT64
    ensures 0 <= ChunkCount(size) * OVERHEAD <= MAX_INT64
    ensures fileSize == ContainerSize(size) ==> size <= MAX_INT64 - HEADER_SIZE - ChunkCount(size) * OVERHEAD
    ensures ChunkCount(size) < MAX_UINT64
  {
  }

  /** The arithmetic of the second pass over a stream: the size it expects is exact when the container fits signed 64
      bits, and negative otherwise; so is the offset of each chunk; and all offsets fit when the container does. */
  lemma OffsetsFit(size: nat, i: nat)
    requires size <= MAX_INT64 && i < ChunkCount(size)
    ensures Int64(CipherOffset(i)) == CipherOffset(i) || Int64(CipherOffset(i)) < 0
    ensures Int64(CipherOffset(i)) >= 0 <==> CipherOffset(i) <= MAX_INT64
    ensures ContainerSize(size) <= MAX_INT64 ==> CipherOffset(i) + PlainLength(size, i) + OVERHEAD <= MAX_INT64
  {
    assert CipherOffset(i) < MAX_UINT64;
    LargerIsNegative(CipherOffset(i));
    ChunksTile(size, i);
    assert i + 1 < ChunkCount(size) ==> CipherOffset(i + 1) <= ContainerSize(size);
  }

  function LastOffset(size: nat): nat { if size == 0 then 0 else CipherOffset(ChunkCount(size) - 1) }

  /** The last offset is the first to overflow, and the size overflows before it. */
  lemma LateOffset(size: nat, i: nat)
    requires size <= MAX_INT64 && i < ChunkCount(size)
    ensures CipherOffset(i) <= LastOffset(size) < ContainerSize(size)
  {
    ChunksTile(size, ChunkCount(size) - 1);
    assert i * (CHUNK + OVERHEAD) <= (ChunkCount(size) - 1) * (CHUNK + OVERHEAD);
  }

  lemma LargerIsNegative(n: nat)
    requires n <= MAX_UINT64
    ensures Int64(n) == if n <= MAX_INT64 then n else n - MAX_UINT64 - 1
  {
    assert n % (MAX_UINT64 + 1) == n;
  }

  lemma ExpectedSizeFits(size: nat)
    requires size <= MAX_INT64
    ensures Int64(ContainerSize(size)) == if ContainerSize(size) <= MAX_INT64 then ContainerSize(size)
                                            else ContainerSize(size) - MAX_UINT64 - 1
    ensures Int64(ContainerSize(size)) >= 0 <==> ContainerSize(size) <= MAX_INT64
  {
    assert ContainerSize(size) <= MAX_UINT64;
    LargerIsNegative(ContainerSize(size));
  }

  /** No nonce is used twice in one file: chunk indexes differ from each other and from the header's. */
  lemma NoncesDiffer(prefix: Bytes, size: nat, i: nat, j: nat)
    requires size <= MAX_INT64 && i < ChunkCount(size) && (j < ChunkCount(size) || j == MAX_UINT64) && i != j
    ensures Nonce(prefix, i) != Nonce(prefix, j)
  {
    EightBytes();
    DecodeEncode(i, 8);
    DecodeEncode(j, 8);
    assert Nonce(prefix, i)[|prefix|..] == Encode(i, 8) && Nonce(prefix, j)[|prefix|..] == Encode(j, 8);
  }

  /** Nor by the two passes over a stream, whose prefixes differ: the same key never seals two texts under one nonce. */
  lemma PassesShareNoNonce(first: Bytes, second: Bytes, i: nat, j: nat)
    requires |first| == |second| && first != second
    ensures Nonce(first, i) != Nonce(second, j)
  {
    assert Nonce(first, i)[..|first|] == first && Nonce(second, j)[..|first|] == second;
  }

  lemma {:induction false} SealedLength(a: Aead, core: Bytes, prefix: Bytes, plain: Bytes, n: nat)
    requires Sound(a) && n <= ChunkCount(|plain|)
    ensures |SealedUpTo(a, core, prefix, plain, n)| == Min(n * CHUNK, |plain|) + n * OVERHEAD
  {
    if n > 0 { SealedLength(a, core, prefix, plain, n - 1); }
  }

  // ---------------------------------------------------------------- writing

  /** Encrypt from a source of unknown length, which must hold exactly the declared number of bytes. */
  method Encrypt(src: Bytes, plaintextSize: int, a: Aead, prefix: Bytes) returns (dst: Bytes, err: Option<Error>)
    requires plaintextSize <= MAX_INT64
    ensures err.None? <==> plaintextSize == |src|
    ensures err.Some? ==> err.value == PlaintextSize
    ensures err.None? ==> dst == Image(a, prefix, src)
  {
    dst := [];
    if plaintextSize < 0 { return dst, Some(PlaintextSize); }
    var core := Core(plaintextSize, prefix);
    dst := core + HeaderTag(a, core, prefix);
    ghost var header, whole := dst, if plaintextSize <= |src| then src[..plaintextSize] else src;
    var remaining, position, chunkIndex := plaintextSize, 0, 0;
    while remaining > 0
      invariant 0 <= remaining && position == plaintextSize - remaining <= |whole|
      invariant position == Min(chunkIndex * CHUNK, plaintextSize)
      invariant plaintextSize <= |src| ==> dst == Written(a, header, core, prefix, whole, position)
    {
      var want := Min(CHUNK, remaining);
      if position + want > |src| { return dst, Some(PlaintextSize); }
      if plaintextSize <= |src| {
        NextChunk(a, header, core, prefix, whole, chunkIndex, want);
        assert whole[position..position + want] == src[position..position + want];
      }
      dst := dst + a.seal(Nonce(prefix, chunkIndex), src[position..position + want], ChunkAad(core, chunkIndex));
      remaining, position, chunkIndex := remaining - want, position + want, chunkIndex + 1;
    }
    if position < |src| { return dst, Some(PlaintextSize); }
    assert whole[..position] == src;
    return dst, None;
  }

  /** A newly created file that is written, read back and rewritten in place. */
  class Dst {
    var data: Bytes
    var pos: nat

    constructor ()
      ensures data == [] && pos == 0
    {
      data, pos := [], 0;
    }

    /** Seeking from the start, which refuses a negative offset. */
    method Seek(to: int) returns (ok: bool)
      modifies this`pos
      ensures ok <==> to >= 0
      ensures pos == if ok then to else old(pos)
    {
      ok := to >= 0;
      if ok { pos := to; }
    }

    method Write(b: Bytes)
      requires pos <= |data|
      modifies this
      ensures pos == old(pos) + |b|
      ensures data == old(data)[..old(pos)] + b + (if pos <= |old(data)| then old(data)[pos..] else [])
      ensures old(pos) == |old(data)| ==> data == old(data) + b && pos == |data|
    {
      data := data[..pos] + b + (if pos + |b| <= |data| then data[pos + |b|..] else []);
      pos := pos + |b|;
    }

    method ReadFull(n: nat) returns (b: Option<Bytes>)
      modifies this`pos
      ensures b.Some? <==> old(pos) + n <= |data|
      ensures b.Some? ==> b.value == data[old(pos)..old(pos) + n] && pos == old(pos) + n
    {
      if pos + n > |data| { return None; }
      b := Some(data[pos..pos + n]);
      pos := pos + n;
    }
  }

  function SealedFrom(a: Aead, core: Bytes, prefix: Bytes, plain: Bytes, n: nat): Bytes
    requires n <= ChunkCount(|plain|)
    decreases ChunkCount(|plain|) - n
  {
    if n == ChunkCount(|plain|) then []
    else SealedChunk(a, core, prefix, plain, n) + SealedFrom(a, core, prefix, plain, n + 1)
  }

  lemma {:induction false} UpToAndFrom(a: Aead, core: Bytes, prefix: Bytes, plain: Bytes, n: nat)
    requires n <= ChunkCount(|plain|)
    ensures SealedUpTo(a, core, prefix, plain, n) + SealedFrom(a, core, prefix, plain, n)
         == SealedUpTo(a, core, prefix, plain, ChunkCount(|plain|))
    decreases ChunkCount(|plain|) - n
  {
    if n < ChunkCount(|plain|) {
      UpToAndFrom(a, core, prefix, plain, n + 1);
      var before, mid, rest := SealedUpTo(a, core, prefix, plain, n), SealedChunk(a, core, prefix, plain, n),
        SealedFrom(a, core, prefix, plain, n + 1);
      assert before + (mid + rest) == (before + mid) + rest;
    }
  }

  /** A longer plaintext keeps the chunks that were already complete. */
  lemma {:induction false} SealedPrefix(a: Aead, core: Bytes, prefix: Bytes, plain: Bytes, more: Bytes, n: nat)
    requires |plain| == n * CHUNK && n <= ChunkCount(|plain + more|)
    ensures n == ChunkCount(|plain|)
    ensures SealedUpTo(a, core, prefix, plain + more, n) == SealedUpTo(a, core, prefix, plain, n)
  {
    SealedPrefixUpTo(a, core, prefix, plain, more, n);
  }

  lemma {:induction false} SealedPrefixUpTo(a: Aead, core: Bytes, prefix: Bytes, plain: Bytes, more: Bytes, k: nat)
    requires k * CHUNK <= |plain|
    ensures k <= ChunkCount(|plain|) && k <= ChunkCount(|plain + more|)
    ensures SealedUpTo(a, core, prefix, plain + more, k) == SealedUpTo(a, core, prefix, plain, k)
  {
    if k > 0 {
      SealedPrefixUpTo(a, core, prefix, plain, more, k - 1);
      assert Chunk(plain + more, k - 1) == Chunk(plain, k - 1);
    }
  }

  /** The file after `size` bytes of the source were written under one header. */
  ghost function Written(a: Aead, header: Bytes, core: Bytes, prefix: Bytes, src: Bytes, size: nat): Bytes
    requires size <= |src|
  {
    header + SealedUpTo(a, core, prefix, src[..size], ChunkCount(size))
  }

  /** The chunk that one full or final read of the source adds. */
  lemma NextChunk(a: Aead, header: Bytes, core: Bytes, prefix: Bytes, src: Bytes, k: nat, n: nat)
    requires k * CHUNK <= |src| && n == Min(CHUNK, |src| - k * CHUNK) && n > 0
    ensures k == ChunkCount(k * CHUNK) && k + 1 == ChunkCount(k * CHUNK + n)
    ensures var p := k * CHUNK;
      Written(a, header, core, prefix, src, p + n) ==
      Written(a, header, core, prefix, src, p) + a.seal(Nonce(prefix, k), src[p..p + n], ChunkAad(core, k))
  {
    var p := k * CHUNK;
    assert src[..p] + src[p..p + n] == src[..p + n];
    SealedPrefix(a, core, prefix, src[..p], src[p..p + n], k);
    assert Chunk(src[..p + n], k) == src[p..p + n];
    assert header + (SealedUpTo(a, core, prefix, src[..p], k) + SealedChunk(a, core, prefix, src[..p + n], k))
      == header + SealedUpTo(a, core, prefix, src[..p], k) + SealedChunk(a, core, prefix, src[..p + n], k);
  }

  method StartStream(dst: Dst, core: Bytes, tag: Bytes)
    requires dst.data == []
    modifies dst
    ensures dst.data == core + tag && dst.pos == |dst.data|
  {
    var ok := dst.Seek(0);
    dst.Write(core);
    dst.Write(tag);
  }

  /** One chunk of the first pass, at the end of the file. */
  method WriteChunk(dst: Dst, src: Bytes, a: Aead, core: Bytes, ghost header: Bytes, prefix: Bytes, chunkIndex: nat,
                    position: nat, n: nat)
    requires position == chunkIndex * CHUNK <= |src| && n == Min(CHUNK, |src| - position) && n > 0
    requires dst.data == Written(a, header, core, prefix, src, position) && dst.pos == |dst.data|
    modifies dst
    ensures dst.data == Written(a, header, core, prefix, src, position + n) && dst.pos == |dst.data|
  {
    NextChunk(a, header, core, prefix, src, chunkIndex, n);
    dst.Write(a.seal(Nonce(prefix, chunkIndex), src[position..position + n], ChunkAad(core, chunkIndex)));
  }

  /** First pass under a provisional header; `FinalizeStream` follows once the size is known. The two prefixes
      are drawn at random, the final one again until it differs. It succeeds exactly when the container's length is a
      signed 64-bit number. */
  method EncryptStream(dst: Dst, src: Bytes, a: Aead, provisionalPrefix: Bytes, finalPrefix: Bytes)
      returns (r: Outcome<int>)
    requires Sound(a) && dst.data == [] && |provisionalPrefix| == 16 && |finalPrefix| == 16
    modifies dst
    ensures r.Done? <==> ContainerSize(|src|) <= MAX_INT64
    ensures r.Done? ==> r == Done(|src|) && dst.data == Image(a, finalPrefix, src) && dst.pos == |dst.data|
    ensures r.Failed? ==> r.error == if |src| > MAX_INT64 then PlaintextSize else NegativeOffset
  {
    var core := Core(0, provisionalPrefix);
    StartStream(dst, core, HeaderTag(a, core, provisionalPrefix));
    ghost var header := dst.data;
    assert Written(a, header, core, provisionalPrefix, src, 0) == header;
    var plaintextSize, chunkIndex := 0, 0;
    while true
      invariant plaintextSize == chunkIndex * CHUNK <= |src| && plaintextSize <= MAX_INT64
      invariant chunkIndex == ChunkCount(plaintextSize)
      invariant dst.data == Written(a, header, core, provisionalPrefix, src, plaintextSize)
      invariant dst.pos == |dst.data| && |header| == HEADER_SIZE
      decreases |src| - plaintextSize
    {
      var n := Min(CHUNK, |src| - plaintextSize);
      if n > 0 {
        if plaintextSize > MAX_INT64 - n { return Failed(PlaintextSize); }
        WriteChunk(dst, src, a, core, header, provisionalPrefix, chunkIndex, plaintextSize, n);
        plaintextSize, chunkIndex := plaintextSize + n, chunkIndex + 1;
      }
      if n < CHUNK {
        r := FinalizeStream(dst, src, a, core, header, provisionalPrefix, finalPrefix, plaintextSize);
        return;
      }
    }
  }

  /** The file while the second pass has reached chunk `i`. */
  ghost function HalfWay(a: Aead, header: Bytes, core: Bytes, prefix: Bytes, newCore: Bytes, newPrefix: Bytes,
      src: Bytes, i: nat): Bytes
    requires i <= ChunkCount(|src|)
  {
    header + SealedUpTo(a, newCore, newPrefix, src, i) + SealedFrom(a, core, prefix, src, i)
  }

  lemma HalfWayParts(a: Aead, header: Bytes, core: Bytes, prefix: Bytes, newCore: Bytes, newPrefix: Bytes, src: Bytes,
      i: nat)
    requires i < ChunkCount(|src|)
    ensures var front := header + SealedUpTo(a, newCore, newPrefix, src, i);
      var rest := SealedFrom(a, core, prefix, src, i + 1);
      && HalfWay(a, header, core, prefix, newCore, newPrefix, src, i)
        == front + SealedChunk(a, core, prefix, src, i) + rest
      && HalfWay(a, header, core, prefix, newCore, newPrefix, src, i + 1)
        == front + SealedChunk(a, newCore, newPrefix, src, i) + rest
  {
    var was, now, rest := SealedChunk(a, core, prefix, src, i), SealedChunk(a, newCore, newPrefix, src, i),
      SealedFrom(a, core, prefix, src, i + 1);
    Associate(header + SealedUpTo(a, newCore, newPrefix, src, i), was, rest);
    Associate(header, SealedUpTo(a, newCore, newPrefix, src, i), now);
  }

  lemma Associate(a: Bytes, b: Bytes, c: Bytes)
    ensures a + (b + c) == a + b + c
  {
  }

  /** Where chunk `i` lies in the half rewritten file, and what replacing it gives. */
  lemma RewriteChunk(a: Aead, header: Bytes, core: Bytes, prefix: Bytes, newCore: Bytes, newPrefix: Bytes, src: Bytes,
      i: nat)
    requires Sound(a) && |header| == HEADER_SIZE && i < ChunkCount(|src|)
    ensures var data := HalfWay(a, header, core, prefix, newCore, newPrefix, src, i);
      var at, len := CipherOffset(i), PlainLength(|src|, i) + OVERHEAD;
      && at + len <= |data| && data[at..at + len] == SealedChunk(a, core, prefix, src, i)
      && |SealedChunk(a, newCore, newPrefix, src, i)| == len
      && data[..at] + SealedChunk(a, newCore, newPrefix, src, i) + data[at + len..]
         == HalfWay(a, header, core, prefix, newCore, newPrefix, src, i + 1)
  {
    FrontLength(a, header, newCore, newPrefix, src, i);
    ChunkLengths(a, core, prefix, newCore, newPrefix, src, i);
    HalfWayParts(a, header, core, prefix, newCore, newPrefix, src, i);
    Splice(header + SealedUpTo(a, newCore, newPrefix, src, i), SealedChunk(a, core, prefix, src, i),
           SealedChunk(a, newCore, newPrefix, src, i), SealedFrom(a, core, prefix, src, i + 1));
  }

  lemma FrontLength(a: Aead, header: Bytes, core: Bytes, prefix: Bytes, src: Bytes, i: nat)
    requires Sound(a) && |header| == HEADER_SIZE && i < ChunkCount(|src|)
    ensures |header + SealedUpTo(a, core, prefix, src, i)| == CipherOffset(i)
  {
    SealedLength(a, core, prefix, src, i);
  }

  lemma ChunkLengths(a: Aead, core: Bytes, prefix: Bytes, newCore: Bytes, newPrefix: Bytes, src: Bytes, i: nat)
    requires Sound(a) && i < ChunkCount(|src|)
    ensures |SealedChunk(a, core, prefix, src, i)| == PlainLength(|src|, i) + OVERHEAD
    ensures |SealedChunk(a, newCore, newPrefix, src, i)| == PlainLength(|src|, i) + OVERHEAD
  {
    ChunksTile(|src|, i);
  }

  lemma Splice(front: Bytes, was: Bytes, now: Bytes, rest: Bytes)
    requires |was| == |now|
    ensures var data := front + was + rest; var at, len := |front|, |was|;
      at + len <= |data| && data[at..at + len] == was && data[..at] + now + data[at + len..] == front + now + rest
  {
    var data := front + was + rest;
    assert data[..|front|] == front && data[|front| + |was|..] == rest;
  }

  lemma NewHeader(header: Bytes, core: Bytes, tag: Bytes, body: Bytes)
    requires |core| == CORE_SIZE && |tag| == OVERHEAD && |header| == HEADER_SIZE
    ensures var one := [] + core + (header + body)[CORE_SIZE..];
      one[..CORE_SIZE] + tag + one[HEADER_SIZE..] == core + tag + body
  {
    var one := core + (header + body)[CORE_SIZE..];
    assert [] + core + (header + body)[CORE_SIZE..] == one;
    assert one[HEADER_SIZE..] == body;
    assert one[..CORE_SIZE] == core;
  }

  method WriteHeader(dst: Dst, core: Bytes, tag: Bytes, ghost header: Bytes, ghost body: Bytes)
    requires |core| == CORE_SIZE && |tag| == OVERHEAD && |header| == HEADER_SIZE && dst.data == header + body
    modifies dst
    ensures dst.data == core + tag + body
  {
    NewHeader(header, core, tag, body);
    var ok := dst.Seek(0);
    dst.Write(core);
    dst.Write(tag);
  }

  /** Once the offset is reached: the provisional chunk is read and opened. */
  method Reopen(dst: Dst, ghost src: Bytes, a: Aead, core: Bytes, provisionalPrefix: Bytes, plaintextSize: nat,
                chunkIndex: nat) returns (plain: Bytes)
    requires Sound(a) && plaintextSize == |src| && chunkIndex < ChunkCount(|src|)
    requires var len := PlainLength(|src|, chunkIndex) + OVERHEAD;
      len >= 0 && dst.pos + len <= |dst.data|
      && dst.data[dst.pos..dst.pos + len] == SealedChunk(a, core, provisionalPrefix, src, chunkIndex)
    modifies dst`pos
    ensures plain == Chunk(src, chunkIndex)
  {
    var cipherLength := PlainLength(plaintextSize, chunkIndex) + OVERHEAD;
    var sealed := dst.ReadFull(cipherLength);
    plain := a.open(Nonce(provisionalPrefix, chunkIndex), sealed.value, ChunkAad(core, chunkIndex)).value;
  }

  method Reseal(dst: Dst, ghost src: Bytes, a: Aead, core: Bytes, ghost header: Bytes, provisionalPrefix: Bytes,
                finalCore: Bytes, finalPrefix: Bytes, plaintextSize: nat, chunkIndex: nat)
    requires Sound(a) && plaintextSize == |src| && |header| == HEADER_SIZE && chunkIndex < ChunkCount(|src|)
    requires dst.data == HalfWay(a, header, core, provisionalPrefix, finalCore, finalPrefix, src, chunkIndex)
    requires dst.pos == CipherOffset(chunkIndex)
    modifies dst
    ensures dst.data == HalfWay(a, header, core, provisionalPrefix, finalCore, finalPrefix, src, chunkIndex + 1)
  {
    RewriteChunk(a, header, core, provisionalPrefix, finalCore, finalPrefix, src, chunkIndex);
    var cipherOffset := dst.pos;
    var plain := Reopen(dst, src, a, core, provisionalPrefix, plaintextSize, chunkIndex);
    var finalSealed := a.seal(Nonce(finalPrefix, chunkIndex), plain, ChunkAad(finalCore, chunkIndex));
    var ok := dst.Seek(cipherOffset);
    dst.Write(finalSealed);
  }

  method ResealChunk(dst: Dst, ghost src: Bytes, a: Aead, core: Bytes, ghost header: Bytes, provisionalPrefix: Bytes,
                     finalCore: Bytes, finalPrefix: Bytes, plaintextSize: nat, chunkIndex: nat) returns (ok: bool)
    requires Sound(a) && plaintextSize == |src| <= MAX_INT64 && |header| == HEADER_SIZE
      && chunkIndex < ChunkCount(|src|)
    requires dst.data == HalfWay(a, header, core, provisionalPrefix, finalCore, finalPrefix, src, chunkIndex)
    modifies dst
    ensures ok <==> CipherOffset(chunkIndex) <= MAX_INT64
    ensures ok ==> dst.data == HalfWay(a, header, core, provisionalPrefix, finalCore, finalPrefix, src, chunkIndex + 1)
  {
    OffsetsFit(plaintextSize, chunkIndex);
    ok := dst.Seek(Int64(CipherOffset(chunkIndex)));
    if ok { Reseal(dst, src, a, core, header, provisionalPrefix, finalCore, finalPrefix, plaintextSize, chunkIndex); }
  }

  /** The header and the seek to the end, which alone may fail here. */
  method FinishStream(dst: Dst, ghost src: Bytes, a: Aead, ghost header: Bytes, finalCore: Bytes, finalPrefix: Bytes,
                      plaintextSize: nat, chunks: nat) returns (r: Outcome<int>)
    requires Sound(a) && plaintextSize == |src| <= MAX_INT64 && chunks == ChunkCount(|src|)
    requires |header| == HEADER_SIZE && |finalPrefix| == 16 && finalCore == Core(|src|, finalPrefix)
    requires dst.data == header + SealedUpTo(a, finalCore, finalPrefix, src, chunks)
    modifies dst
    ensures r == if ContainerSize(|src|) <= MAX_INT64 then Done(|src|) else Failed(NegativeOffset)
    ensures r.Done? ==> dst.pos == |dst.data|
    ensures dst.data == Image(a, finalPrefix, src)
  {
    WriteHeader(dst, finalCore, HeaderTag(a, finalCore, finalPrefix), header,
      SealedUpTo(a, finalCore, finalPrefix, src, chunks));
    SealedLength(a, finalCore, finalPrefix, src, chunks);
    ExpectedSizeFits(plaintextSize);
    var ok := dst.Seek(Int64(HEADER_SIZE + plaintextSize + chunks * OVERHEAD));
    r := if ok then Done(plaintextSize) else Failed(NegativeOffset);
  }

  /** Second pass: every provisional chunk is read back, opened and sealed again in place, then the header. When only
      the last seek fails the file is complete nevertheless. */
  method FinalizeStream(dst: Dst, ghost src: Bytes, a: Aead, core: Bytes, ghost header: Bytes, provisionalPrefix: Bytes,
                        finalPrefix: Bytes, plaintextSize: nat) returns (r: Outcome<int>)
    requires Sound(a) && plaintextSize == |src| <= MAX_INT64 && |header| == HEADER_SIZE && |finalPrefix| == 16
    requires dst.data == Written(a, header, core, provisionalPrefix, src, plaintextSize)
    modifies dst
    ensures r == if ContainerSize(|src|) <= MAX_INT64 then Done(|src|) else Failed(NegativeOffset)
    ensures r.Done? ==> dst.pos == |dst.data|
    ensures r.Done? || LastOffset(|src|) <= MAX_INT64 ==> dst.data == Image(a, finalPrefix, src)
  {
    var finalCore, chunks := Core(plaintextSize, finalPrefix), ChunkCount(plaintextSize);
    assert src[..plaintextSize] == src;
    UpToAndFrom(a, core, provisionalPrefix, src, 0);
    var ok := ResealAll(dst, src, a, core, header, provisionalPrefix, finalCore, finalPrefix, plaintextSize, chunks);
    if ok {
      r := FinishStream(dst, src, a, header, finalCore, finalPrefix, plaintextSize, chunks);
    } else {
      r := Failed(NegativeOffset);
    }
  }

  /** All chunks in turn, as long as their offsets fit. */
  method ResealAll(dst: Dst, ghost src: Bytes, a: Aead, core: Bytes, ghost header: Bytes, provisionalPrefix: Bytes,
                   finalCore: Bytes, finalPrefix: Bytes, plaintextSize: nat, chunks: nat) returns (ok: bool)
    requires Sound(a) && plaintextSize == |src| <= MAX_INT64 && |header| == HEADER_SIZE && chunks == ChunkCount(|src|)
    requires dst.data == HalfWay(a, header, core, provisionalPrefix, finalCore, finalPrefix, src, 0)
    modifies dst
    ensures ok <==> LastOffset(|src|) <= MAX_INT64
    ensures ok ==> dst.data == header + SealedUpTo(a, finalCore, finalPrefix, src, chunks)
    ensures !ok ==> ContainerSize(|src|) > MAX_INT64
  {
    var chunkIndex := 0;
    while chunkIndex < chunks
      invariant 0 <= chunkIndex <= chunks
      invariant chunkIndex > 0 ==> CipherOffset(chunkIndex - 1) <= MAX_INT64
      invariant dst.data == HalfWay(a, header, core, provisionalPrefix, finalCore, finalPrefix, src, chunkIndex)
    {
      ok := ResealChunk(dst, src, a, core, header, provisionalPrefix, finalCore, finalPrefix, plaintextSize,
        chunkIndex);
      LateOffset(plaintextSize, chunkIndex);
      if !ok { return; }
      chunkIndex := chunkIndex + 1;
    }
    ok := true;
  }

  // ---------------------------------------------------------------- opening

  datatype Container = Container(image: Bytes, aead: Aead, core: Bytes, prefix: Bytes, size: int)

  function Open(image: Bytes, a: Aead): Outcome<Container> {
    if |image| < HEADER_SIZE then Failed(InvalidFormat)
    else
      var core := image[..CORE_SIZE];
      if core[..8] != MAGIC || core[8] != VERSION then Failed(InvalidFormat)
      else if core[9..16] != [0, 0, 0, 0, 0, 0, 0] then Failed(InvalidFormat)
      else
        var prefix := core[24..40];
        if a.open(Nonce(prefix, MAX_UINT64), image[CORE_SIZE..HEADER_SIZE], core).None? then Failed(Authentication)
        else
          var size := ToInt64(Decode(core[16..24]));
          if size < 0 || size > |image| then Failed(InvalidFormat)
          else
            var overhead := ChunkCount(size) * OVERHEAD;
            if overhead > MAX_INT64 || size > MAX_INT64 - HEADER_SIZE - overhead then Failed(InvalidFormat)
            else if |image| != HEADER_SIZE + size + overhead then Failed(InvalidFormat)
            else Done(Container(image, a, core, prefix, size))
  }

  /** What opening establishes: the size in the header is the plaintext of exactly this many bytes of file. */
  ghost predicate Opened(c: Container) {
    && Sound(c.aead) && 0 <= c.size && |c.image| == HEADER_SIZE + c.size + ChunkCount(c.size) * OVERHEAD
  }

  function DecryptChunk(c: Container, i: nat): Outcome<Bytes>
    requires Opened(c) && i < ChunkCount(c.size)
  {
    ChunkFits(c.size, i);
    var at := CipherOffset(i);
    match c.aead.open(Nonce(c.prefix, i), c.image[at..at + PlainLength(c.size, i) + OVERHEAD], ChunkAad(c.core, i))
    case None => Failed(Authentication)
    case Some(plain) => Done(plain)
  }

  lemma ChunkFits(size: nat, i: nat)
    requires i < ChunkCount(size)
    ensures CipherOffset(i) + PlainLength(size, i) + OVERHEAD <= HEADER_SIZE + size + ChunkCount(size) * OVERHEAD
    ensures 0 < PlainLength(size, i) <= CHUNK
  {
    ChunksTile(size, i);
  }

  /** The container holds this plaintext: every chunk decrypts to its part of it. */
  ghost predicate Holds(c: Container, plain: Bytes)
    requires Opened(c)
  {
    c.size == |plain| && forall i: nat {:trigger DecryptChunk(c, i)} | i < ChunkCount(c.size) ::
      DecryptChunk(c, i) == Done(Chunk(plain, i))
  }

  lemma DecodeSize(prefix: Bytes, size: nat)
    requires |prefix| == 16 && size <= MAX_INT64
    ensures var core := Core(size, prefix);
      && |core| == CORE_SIZE && core[..8] == MAGIC && core[8] == VERSION && core[9..16] == [0, 0, 0, 0, 0, 0, 0]
      && core[24..40] == prefix && ToInt64(Decode(core[16..24])) == size
  {
    var core := Core(size, prefix);
    EightBytes();
    DecodeEncode(size, 8);
    assert core[16..24] == Encode(size, 8);
    assert core[24..40] == prefix;
  }

  predicate Holding(body: Bytes, at: nat, part: Bytes) { at + |part| <= |body| && body[at..at + |part|] == part }

  lemma {:induction false} ChunkInBody(a: Aead, core: Bytes, prefix: Bytes, plain: Bytes, i: nat, n: nat)
    requires Sound(a) && i < n <= ChunkCount(|plain|)
    ensures Holding(SealedUpTo(a, core, prefix, plain, n), i * (CHUNK + OVERHEAD),
      SealedChunk(a, core, prefix, plain, i))
  {
    var before, last := SealedUpTo(a, core, prefix, plain, n - 1), SealedChunk(a, core, prefix, plain, n - 1);
    if i < n - 1 {
      ChunkInBody(a, core, prefix, plain, i, n - 1);
      StillHolding(before, last, i * (CHUNK + OVERHEAD), SealedChunk(a, core, prefix, plain, i));
    } else {
      SealedLength(a, core, prefix, plain, n - 1);
      HoldingLast(before, last);
    }
  }

  lemma HoldingLast(before: Bytes, last: Bytes)
    ensures Holding(before + last, |before|, last)
  {
  }

  lemma StillHolding(before: Bytes, last: Bytes, at: nat, part: Bytes)
    requires Holding(before, at, part)
    ensures Holding(before + last, at, part)
  {
  }

  function Wrapped(a: Aead, prefix: Bytes, plain: Bytes): Container {
    Container(Image(a, prefix, plain), a, Core(|plain|, prefix), prefix, |plain|)
  }

  lemma WrittenHeader(a: Aead, prefix: Bytes, plain: Bytes)
    requires Sound(a) && |prefix| == 16 && |Image(a, prefix, plain)| <= MAX_INT64
    ensures Open(Image(a, prefix, plain), a) == Done(Wrapped(a, prefix, plain)) && Opened(Wrapped(a, prefix, plain))
  {
    var image, core := Image(a, prefix, plain), Core(|plain|, prefix);
    SealedLength(a, core, prefix, plain, ChunkCount(|plain|));
    DecodeSize(prefix, |plain|);
    assert image[..CORE_SIZE] == core;
    assert image[CORE_SIZE..HEADER_SIZE] == HeaderTag(a, core, prefix);
  }

  lemma TailSlice(header: Bytes, body: Bytes, at: nat, len: nat)
    requires at + len <= |body|
    ensures (header + body)[|header| + at..|header| + at + len] == body[at..at + len]
  {
  }

  lemma WrittenChunk(a: Aead, prefix: Bytes, plain: Bytes, i: nat)
    requires Sound(a) && |prefix| == 16 && Opened(Wrapped(a, prefix, plain)) && i < ChunkCount(|plain|)
    ensures DecryptChunk(Wrapped(a, prefix, plain), i) == Done(Chunk(plain, i))
  {
    ChunkInImage(a, prefix, plain, i);
    SealedSlice(a, prefix, plain, i);
  }

  /** Where a sealed chunk stands in the image. */
  lemma ChunkInImage(a: Aead, prefix: Bytes, plain: Bytes, i: nat)
    requires Sound(a) && |prefix| == 16 && i < ChunkCount(|plain|)
    ensures var at, len := CipherOffset(i), PlainLength(|plain|, i) + OVERHEAD;
      && len >= OVERHEAD && at + len <= |Image(a, prefix, plain)|
      && Image(a, prefix, plain)[at..at + len] == SealedChunk(a, Core(|plain|, prefix), prefix, plain, i)
  {
    var core := Core(|plain|, prefix);
    var header := core + HeaderTag(a, core, prefix);
    var body := SealedUpTo(a, core, prefix, plain, ChunkCount(|plain|));
    ChunkInBody(a, core, prefix, plain, i, ChunkCount(|plain|));
    ChunkLengths(a, core, prefix, core, prefix, plain, i);
    TailSlice(header, body, i * (CHUNK + OVERHEAD), PlainLength(|plain|, i) + OVERHEAD);
    ChunkOffset(|plain|, i);
  }

  lemma ChunkOffset(size: nat, i: nat)
    requires i < ChunkCount(size)
    ensures CipherOffset(i) == HEADER_SIZE + i * (CHUNK + OVERHEAD) && PlainLength(size, i) > 0
  {
  }

  lemma SealedSlice(a: Aead, prefix: Bytes, plain: Bytes, i: nat)
    requires Sound(a) && Opened(Wrapped(a, prefix, plain)) && i < ChunkCount(|plain|)
    requires var at := CipherOffset(i);
      && PlainLength(|plain|, i) >= 0 && at + PlainLength(|plain|, i) + OVERHEAD <= |Image(a, prefix, plain)|
      && Image(a, prefix, plain)[at..at + PlainLength(|plain|, i) + OVERHEAD]
        == SealedChunk(a, Core(|plain|, prefix), prefix, plain, i)
    ensures DecryptChunk(Wrapped(a, prefix, plain), i) == Done(Chunk(plain, i))
  {
  }

  /** Round trip: what `Encrypt` writes opens, and holds exactly the plaintext. */
  lemma WrittenFileOpens(a: Aead, prefix: Bytes, plain: Bytes)
    requires Sound(a) && |prefix| == 16 && |Image(a, prefix, plain)| <= MAX_INT64
    ensures var r := Open(Image(a, prefix, plain), a); r.Done? && Opened(r.value) && Holds(r.value, plain)
  {
    WrittenHeader(a, prefix, plain);
    forall i: nat | i < ChunkCount(|plain|)
      ensures DecryptChunk(Wrapped(a, prefix, plain), i) == Done(Chunk(plain, i)) {
      WrittenChunk(a, prefix, plain, i);
    }
  }

  lemma OpenEstablishes(image: Bytes, a: Aead)
    requires Sound(a) && Open(image, a).Done?
    ensures Opened(Open(image, a).value) && Open(image, a).value.image == image
  {
  }

  // ---------------------------------------------------------------- reading

  datatype Slot = Slot(valid: bool, index: nat, plain: Bytes)

  /** The plaintext byte at a position is this one. */
  ghost predicate ByteAt(c: Container, pos: nat, b: Byte)
    requires Opened(c) && pos < c.size
  {
    var r := DecryptChunk(c, pos / CHUNK);
    r.Done? && pos % CHUNK < |r.value| && r.value[pos % CHUNK] == b
  }

  lemma HeldByte(c: Container, plain: Bytes, pos: nat, b: Byte)
    requires Opened(c) && Holds(c, plain) && pos < c.size && ByteAt(c, pos, b)
    ensures b == plain[pos]
  {
    assert DecryptChunk(c, pos / CHUNK) == Done(Chunk(plain, pos / CHUNK));
  }

  class File {
    const c: Container
    var offset: int
    const cache: array<Slot>
    var cacheNext: nat

    constructor (container: Container)
      requires Opened(container)
      ensures Valid() && c == container && offset == 0 && fresh(cache)
    {
      c := container;
      cache := new Slot[CACHE_ENTRIES](_ => Slot(false, 0, []));
      offset, cacheNext := 0, 0;
    }

    /** Every valid slot equals the decrypted chunk of its index. */
    ghost predicate Valid()
      reads this, cache
    {
      && Opened(c) && cache.Length == CACHE_ENTRIES && cacheNext < CACHE_ENTRIES
      && forall k {:trigger cache[k]} | 0 <= k < cache.Length ::
           cache[k].valid ==>
             cache[k].index < ChunkCount(c.size) && DecryptChunk(c, cache[k].index) == Done(cache[k].plain)
    }

    ghost predicate Cached(index: nat)
      reads cache
    {
      exists i | 0 <= i < cache.Length :: cache[i].valid && cache[i].index == index
    }

    /** A cached chunk changes nothing; another one takes the place of the oldest entry, unless it is damaged: then that
        entry is dropped, and stays the next to be replaced. */
    method CachedChunk(index: nat) returns (r: Outcome<Bytes>)
      requires Valid() && index < ChunkCount(c.size)
      modifies this`cacheNext, cache
      ensures Valid() && r == DecryptChunk(c, index)
      ensures old(Cached(index)) ==> cache[..] == old(cache[..]) && cacheNext == old(cacheNext)
      ensures !old(Cached(index)) && r.Done? ==>
        && cache[..] == old(cache[..])[old(cacheNext) := Slot(true, index, r.value)]
        && cacheNext == (if old(cacheNext) == 3 then 0 else old(cacheNext) + 1)
      ensures !old(Cached(index)) && r.Failed? ==>
        && cache[..] == old(cache[..])[old(cacheNext) := old(cache[cacheNext]).(valid := false)]
        && cacheNext == old(cacheNext)
    {
      var i := 0;
      while i < cache.Length
        invariant 0 <= i <= cache.Length
        invariant forall j | 0 <= j < i :: !(cache[j].valid && cache[j].index == index)
      {
        if cache[i].valid && cache[i].index == index { return Done(cache[i].plain); }
        i := i + 1;
      }
      var slot := cacheNext;
      r := DecryptChunk(c, index);
      if r.Failed? {
        cache[slot] := cache[slot].(valid := false);
        return;
      }
      cache[slot] := Slot(true, index, r.value);
      cacheNext := (slot + 1) % cache.Length;
    }

    /** Random access. A container that holds a plaintext yields exactly the requested slice of it, short only
        at the end of the file, whatever was read before; otherwise every byte delivered is authentic and the
        read stops at the first chunk that does not authenticate. */
    method ReadAt(p: array<Byte>, off: int) returns (n: nat, err: Option<Error>)
      requires Valid()
      modifies this`cacheNext, cache, p
      ensures Valid() && n <= p.Length && p[n..] == old(p[n..])
      ensures off < 0 ==> n == 0 && err == Some(NegativeOffset)
      ensures off >= 0 && p.Length == 0 ==> err.None?
      ensures off >= c.size && p.Length > 0 ==> n == 0 && err == Some(EndOfFile)
      ensures 0 <= off < c.size ==> off + n <= c.size && forall k | 0 <= k < n :: ByteAt(c, off + k, p[k])
      ensures err.None? ==> n == p.Length
      ensures 0 <= off < c.size && err == Some(EndOfFile) ==> off + n == c.size && n < p.Length
      ensures 0 <= off < c.size && err.Some? && err.value != EndOfFile ==>
        off + n < c.size && n < p.Length && DecryptChunk(c, (off + n) / CHUNK) == Failed(err.value)
      ensures forall plain {:trigger Holds(c, plain)} | Holds(c, plain) && 0 <= off < c.size && p.Length > 0 ::
        n == Min(p.Length, c.size - off) && p[..n] == plain[off..off + n]
          && (err == if n < p.Length then Some(EndOfFile) else None)
    {
      if off < 0 { return 0, Some(NegativeOffset); }
      if p.Length == 0 { return 0, None; }
      if off >= c.size { return 0, Some(EndOfFile); }
      var requested, available := p.Length, c.size - off;
      var limit := if requested > available then available else requested;
      n := 0;
      while n < limit
        invariant 0 <= n <= limit && Valid()
        invariant forall k | 0 <= k < n :: ByteAt(c, off + k, p[k])
        invariant p[n..] == old(p[n..])
      {
        n, err := CopyFrom(p, off, n, limit);
        if err.Some? {
          NotHeld(n, off);
          return;
        }
      }
      SliceIsHeld(p[..], off, n);
      return n, if n < requested then Some(EndOfFile) else None;
    }

    /** One round of the copy loop: the rest of the chunk that contains the position. */
    method CopyFrom(p: array<Byte>, off: nat, written: nat, limit: nat) returns (n: nat, err: Option<Error>)
      requires Valid() && written < limit <= p.Length && off + limit <= c.size
      requires forall k | 0 <= k < written :: ByteAt(c, off + k, p[k])
      modifies this`cacheNext, cache, p
      ensures Valid() && written <= n <= limit && p[n..] == old(p[n..])
      ensures forall k | 0 <= k < n :: ByteAt(c, off + k, p[k])
      ensures err.None? ==> n > written
      ensures err.Some? ==> n == written && DecryptChunk(c, (off + n) / CHUNK) == Failed(err.value)
    {
      var position := off + written;
      var chunkIndex := position / CHUNK;
      var chunkStart := chunkIndex * CHUNK;
      var chunk := CachedChunk(chunkIndex);
      if chunk.Failed? { return written, Some(chunk.error); }
      var plain, within := chunk.value, position - chunkStart;
      ChunkFits(c.size, chunkIndex);
      var take := |plain| - within;
      if take > limit - written { take := limit - written; }
      Copy(p, written, plain, within, take);
      BytesOfChunk(p, off, written, take, chunkIndex, within, plain);
      return written + take, None;
    }

    static method Copy(p: array<Byte>, written: nat, plain: Bytes, within: nat, take: nat)
      requires written + take <= p.Length && within + take <= |plain|
      modifies p
      ensures p[..written] == old(p[..written]) && p[written + take..] == old(p[written + take..])
      ensures p[written..written + take] == plain[within..within + take]
    {
      forall k | 0 <= k < take { p[written + k] := plain[within + k]; }
    }

    lemma BytesOfChunk(p: array<Byte>, off: nat, written: nat, take: nat, chunkIndex: nat, within: nat, plain: Bytes)
      requires Opened(c) && chunkIndex < ChunkCount(c.size) && DecryptChunk(c, chunkIndex) == Done(plain)
      requires off + written == chunkIndex * CHUNK + within && written + take <= p.Length && within + take <= |plain|
      requires p[written..written + take] == plain[within..within + take]
      ensures off + written + take <= c.size
      ensures forall k | written <= k < written + take :: ByteAt(c, off + k, p[k])
    {
      ChunkFits(c.size, chunkIndex);
      forall k | written <= k < written + take ensures off + k < c.size && ByteAt(c, off + k, p[k]) {
        assert p[k] == p[written..written + take][k - written] == plain[within + (k - written)];
        ByteOfChunk(chunkIndex, within + (k - written), plain, p[k]);
      }
    }

    lemma ByteOfChunk(index: nat, within: nat, plain: Bytes, b: Byte)
      requires Opened(c) && index < ChunkCount(c.size) && DecryptChunk(c, index) == Done(plain)
      requires within < |plain| && plain[within] == b
      ensures index * CHUNK + within < c.size && ByteAt(c, index * CHUNK + within, b)
    {
      ChunkFits(c.size, index);
      assert (index * CHUNK + within) / CHUNK == index && (index * CHUNK + within) % CHUNK == within;
    }

    lemma NotHeld(n: nat, off: nat)
      requires Opened(c) && off + n < c.size && DecryptChunk(c, (off + n) / CHUNK).Failed?
      ensures forall plain {:trigger Holds(c, plain)} :: !Holds(c, plain)
    {
    }

    lemma SliceIsHeld(p: Bytes, off: nat, n: nat)
      requires Opened(c) && n <= |p| && off + n <= c.size && forall k | 0 <= k < n :: ByteAt(c, off + k, p[k])
      ensures forall plain {:trigger Holds(c, plain)} | Holds(c, plain) :: p[..n] == plain[off..off + n]
    {
      forall plain | Holds(c, plain) ensures p[..n] == plain[off..off + n] {
        forall k | 0 <= k < n ensures p[k] == plain[off + k] { HeldByte(c, plain, off + k, p[k]); }
      }
    }

    /** Sequential access: the next bytes at the current offset. */
    method Read(p: array<Byte>) returns (n: nat, err: Option<Error>)
      requires Valid() && offset >= 0
      modifies this, cache, p
      ensures Valid() && offset == old(offset) + n && n <= p.Length
      ensures forall plain {:trigger Holds(c, plain)} | Holds(c, plain) && p.Length > 0 ::
        if offset - n >= c.size then n == 0 && err == Some(EndOfFile)
        else n == Min(p.Length, c.size - (offset - n)) && p[..n] == plain[offset - n..offset]
             && (err == if n < p.Length then Some(EndOfFile) else None)
    {
      n, err := ReadAt(p, offset);
      offset := offset + n;
    }
  }

  // ---------------------------------------------------------------- what opens

  /** The header's plain fields: the letters of the magic, the version, seven zero bytes. */
  predicate PlainHeader(image: Bytes) {
    && |image| >= 56
    && (forall k | 0 <= k < 8 :: image[k] == "GOORUENC"[k] as int)
    && image[8] == 1
    && (forall k | 9 <= k < 16 :: image[k] == 0)
  }

  /** The tag after the header's 40 bytes seals nothing but them, under the nonce of the largest index. */
  predicate SealedHeader(image: Bytes, a: Aead)
    requires |image| >= 56
  {
    a.open(image[24..40] + [255, 255, 255, 255, 255, 255, 255, 255], image[40..56], image[..40]).Some?
  }

  /** The declared size is a signed number, and the file is as long as the container of so much plaintext: 16 bytes
      for each begun mebibyte of it, and 56 for the header. */
  predicate RightLength(image: Bytes)
    requires |image| >= 56
  {
    var size := Decode(image[16..24]);
    0 <= size <= MAX_INT64 && |image| == 56 + size + (size + 1048575) / 1048576 * 16
  }

  lemma MagicLetters(image: Bytes)
    requires |image| >= 56
    ensures PlainHeader(image) <==>
      && image[..CORE_SIZE][..8] == MAGIC && image[..CORE_SIZE][8] == VERSION
      && image[..CORE_SIZE][9..16] == [0, 0, 0, 0, 0, 0, 0]
  {
    var magic := "GOORUENC";
    assert magic[0] as int == 0x47 && magic[1] as int == 0x4f && magic[2] as int == 0x4f && magic[3] as int == 0x52;
    assert magic[4] as int == 0x55 && magic[5] as int == 0x45 && magic[6] as int == 0x4e && magic[7] as int == 0x43;
    assert forall k | 0 <= k < 8 :: MAGIC[k] == magic[k] as int;
    assert forall k | 0 <= k < 8 :: image[..CORE_SIZE][..8][k] == image[k];
    assert forall k | 9 <= k < 16 :: image[..CORE_SIZE][9..16][k - 9] == image[k];
    assert image[..CORE_SIZE][9..16] == [0, 0, 0, 0, 0, 0, 0] ==>
      forall k | 9 <= k < 16 :: image[k] == [0, 0, 0, 0, 0, 0, 0][k - 9];
  }

  lemma LargestIndex()
    ensures Encode(MAX_UINT64, 8) == [255, 255, 255, 255, 255, 255, 255, 255]
  {
    assert Encode(0xff, 1) == [255] && Encode(0xffff, 2) == [255, 255];
    assert Encode(0xff_ffff, 3) == [255] + Encode(0xffff, 2);
    assert Encode(0xffff_ffff, 4) == [255] + Encode(0xff_ffff, 3);
    assert Encode(0xff_ffff_ffff, 5) == [255] + Encode(0xffff_ffff, 4);
    assert Encode(0xffff_ffff_ffff, 6) == [255] + Encode(0xff_ffff_ffff, 5);
    assert Encode(0xff_ffff_ffff_ffff, 7) == [255] + Encode(0xffff_ffff_ffff, 6);
    assert Encode(MAX_UINT64, 8) == [255] + Encode(0xff_ffff_ffff_ffff, 7);
  }

  /** A file opens exactly when its header is plain, sealed and tells its length; a header that is not plain and a
      length that is wrong are format errors, and a header that is plain but not sealed is an authentication error,
      whatever follows it. */
  lemma OpenSucceedsIff(image: Bytes, a: Aead)
    requires |image| <= MAX_INT64
    ensures Open(image, a).Done? <==> PlainHeader(image) && SealedHeader(image, a) && RightLength(image)
    ensures PlainHeader(image) && !SealedHeader(image, a) ==> Open(image, a) == Failed(Authentication)
    ensures !PlainHeader(image) || (SealedHeader(image, a) && !RightLength(image)) ==>
      Open(image, a) == Failed(InvalidFormat)
    ensures Open(image, a).Done? ==>
      Open(image, a).value == Container(image, a, image[..40], image[24..40], Decode(image[16..24]))
  {
    if |image| >= 56 {
      MagicLetters(image);
      LargestIndex();
      SameSlices(image);
      DecodeFits(image[16..24]);
      EightBytes();
      DeclaredLength(image, Decode(image[16..24]));
    }
  }

  lemma {:induction false} DecodeFits(b: Bytes)
    ensures 0 <= Decode(b) < Pow256(|b|)
  {
    if b != [] { DecodeFits(b[1..]); }
  }

  lemma SameSlices(image: Bytes)
    requires |image| >= 56
    ensures image[..CORE_SIZE][24..40] == image[24..40] && image[..CORE_SIZE][16..24] == image[16..24]
  {
  }

  lemma DeclaredLength(image: Bytes, u: int)
    requires |image| <= MAX_INT64 && 0 <= u <= MAX_UINT64
    ensures var size := ToInt64(u);
      (0 <= u <= MAX_INT64 && |image| == 56 + u + (u + 1048575) / 1048576 * 16)
      <==> 0 <= size <= |image| && |image| == ContainerSize(size)
  {
  }

  /** What was encrypted under one key does not open under another that rejects its header, be it empty or damaged
      behind the header. */
  lemma WrongKeyFails(a: Aead, b: Aead, prefix: Bytes, plain: Bytes, image: Bytes)
    requires Sound(a) && |prefix| == 16 && HEADER_SIZE <= |image| <= MAX_INT64 && |plain| <= MAX_INT64
    requires image[..HEADER_SIZE] == Image(a, prefix, plain)[..HEADER_SIZE]
    requires b.open(Nonce(prefix, MAX_UINT64), HeaderTag(a, Core(|plain|, prefix), prefix), Core(|plain|, prefix)).None?
    ensures Open(image, b) == Failed(Authentication)
  {
    var core := Core(|plain|, prefix);
    assert Image(a, prefix, plain)[..HEADER_SIZE] == core + HeaderTag(a, core, prefix);
    var header := image[..HEADER_SIZE];
    assert image[..CORE_SIZE] == header[..CORE_SIZE] == core;
    assert image[CORE_SIZE..HEADER_SIZE] == header[CORE_SIZE..] == HeaderTag(a, core, prefix);
    assert core[..8] == MAGIC && core[8] == VERSION && core[9..16] == [0, 0, 0, 0, 0, 0, 0] && core[24..40] == prefix;
  }

  /** Opening a file: what the checks accept meets all that reading needs. */
  method OpenFile(image: Bytes, a: Aead) returns (r: Outcome<File>)
    requires Sound(a) && |image| <= MAX_INT64
    ensures r.Done? <==> PlainHeader(image) && SealedHeader(image, a) && RightLength(image)
    ensures PlainHeader(image) && !SealedHeader(image, a) ==> r == Failed(Authentication)
    ensures match Open(image, a)
      case Failed(e) => r == Failed(e)
      case Done(c) =>
        && r.Done? && fresh(r.value) && fresh(r.value.cache)
        && r.value.Valid() && r.value.c == c && c.image == image && r.value.offset == 0
  {
    var result := Open(image, a);
    OpenSucceedsIff(image, a);
    if result.Failed? { return Failed(result.error); }
    OpenEstablishes(image, a);
    var file := new File(result.value);
    return Done(file);
  }

  /** From end to end: what is encrypted, opened and read at any offset is the plaintext there, as far as it reaches. */
  method WriteAndReadBack(plain: Bytes, a: Aead, prefix: Bytes, p: array<Byte>, off: nat)
      returns (n: nat, err: Option<Error>)
    requires Sound(a) && |prefix| == 16 && ContainerSize(|plain|) <= MAX_INT64 && p.Length > 0
    modifies p
    ensures if off >= |plain| then n == 0 && err == Some(EndOfFile)
            else n == Min(p.Length, |plain| - off) && p[..n] == plain[off..off + n]
                 && err == if n < p.Length then Some(EndOfFile) else None
  {
    var image, failure := Encrypt(plain, |plain|, a, prefix);
    ImageSize(a, prefix, plain);
    WrittenFileOpens(a, prefix, plain);
    var file := OpenFile(image, a);
    n, err := file.value.ReadAt(p, off);
  }

  lemma ImageSize(a: Aead, prefix: Bytes, plain: Bytes)
    requires Sound(a) && |prefix| == 16
    ensures |Image(a, prefix, plain)| == ContainerSize(|plain|)
  {
    SealedLength(a, Core(|plain|, prefix), prefix, plain, ChunkCount(|plain|));
  }
}
