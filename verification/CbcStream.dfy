/**
 The streaming AES-CBC writer and reader (CBC: section 6.2 of NIST SP 800-38A; padding:
 section 6.3 of RFC 5652). The block cipher is any permutation of the blocks.
 */
module CbcStream {
  import opened Sequences

  type Byte = bv8
  type Bytes = seq<Byte>

  /** AES's block size. */
  const BLOCK := 16

  datatype Cipher = Cipher(enc: Bytes -> Bytes, dec: Bytes -> Bytes)

  ghost predicate IsCipher(c: Cipher) {
    && (forall b: Bytes {:trigger c.enc(b)} :: |b| == BLOCK ==> |c.enc(b)| == BLOCK && c.dec(c.enc(b)) == b)
    && (forall b: Bytes {:trigger c.dec(b)} :: |b| == BLOCK ==> |c.dec(b)| == BLOCK)
  }

  function Xor(a: Bytes, b: Bytes): (r: Bytes)
    requires |a| == |b|
    ensures |r| == |a| && forall i :: 0 <= i < |a| ==> r[i] == a[i] ^ b[i]
  {
    seq(|a|, i requires 0 <= i < |a| => a[i] ^ b[i])
  }

  lemma {:induction false} XorTwice(a: Bytes, b: Bytes)
    requires |a| == |b|
    ensures Xor(Xor(a, b), b) == a
  {
    forall i | 0 <= i < |a| ensures (a[i] ^ b[i]) ^ b[i] == a[i] {
    }
  }

  ghost predicate Whole(x: Bytes) {
    |x| % BLOCK == 0
  }

  // ---------------------------------------------------------------- CBC over whole blocks

  /** What CryptBlocks makes of whole blocks `p` when its chaining value is `iv`. */
  function Encrypt(c: Cipher, iv: Bytes, p: Bytes): (r: Bytes)
    requires IsCipher(c) && |iv| == BLOCK && Whole(p)
    ensures |r| == |p|
    decreases |p|
  {
    if p == [] then []
    else
      var b := c.enc(Xor(p[..BLOCK], iv));
      b + Encrypt(c, b, p[BLOCK..])
  }

  /** The chaining value CryptBlocks is left with. */
  function Chained(c: Cipher, iv: Bytes, p: Bytes): (r: Bytes)
    requires IsCipher(c) && |iv| == BLOCK && Whole(p)
    ensures |r| == BLOCK
    decreases |p|
  {
    if p == [] then iv else Chained(c, c.enc(Xor(p[..BLOCK], iv)), p[BLOCK..])
  }

  lemma {:induction false} EncryptConcat(c: Cipher, iv: Bytes, p: Bytes, q: Bytes)
    requires IsCipher(c) && |iv| == BLOCK && Whole(p) && Whole(q)
    ensures Whole(p + q)
    ensures Encrypt(c, iv, p + q) == Encrypt(c, iv, p) + Encrypt(c, Chained(c, iv, p), q)
    ensures Chained(c, iv, p + q) == Chained(c, Chained(c, iv, p), q)
    decreases |p|
  {
    if p == [] {
      assert p + q == q;
    } else {
      var b, rest := c.enc(Xor(p[..BLOCK], iv)), p[BLOCK..];
      assert (p + q)[..BLOCK] == p[..BLOCK] && (p + q)[BLOCK..] == rest + q;
      EncryptConcat(c, b, rest, q);
      assert Encrypt(c, iv, p + q) == b + Encrypt(c, b, rest + q);
      assert Encrypt(c, iv, p) == b + Encrypt(c, b, rest);
    }
  }

  // ---------------------------------------------------------------- padding

  function Padding(n: nat): (pad: nat)
    ensures 1 <= pad <= BLOCK && (n + pad) % BLOCK == 0
  {
    BLOCK - n % BLOCK
  }

  function Padded(p: Bytes): (r: Bytes)
    ensures Whole(r)
  {
    var pad := Padding(|p|);
    p + seq(pad, _ => pad as Byte)
  }

  /** The ciphertext of a plaintext. */
  function Sealed(c: Cipher, iv: Bytes, p: Bytes): Bytes
    requires IsCipher(c) && |iv| == BLOCK
  {
    Encrypt(c, iv, Padded(p))
  }

  /** What a ciphertext delivers: the plaintext bytes, and whether its padding was valid. */
  datatype Plain = Plain(bytes: Bytes, ok: bool)

  function Strip(block: Bytes): Plain
    requires |block| == BLOCK
  {
    var pad := block[BLOCK - 1] as int;
    if 1 <= pad <= BLOCK then Plain(block[..BLOCK - pad], true) else Plain([], false)
  }

  /** The reader's view of any input at all: blocks in turn, the last one stripped, a trailing fragment ignored. */
  function Opened(c: Cipher, iv: Bytes, x: Bytes): Plain
    requires IsCipher(c) && |iv| == BLOCK
    decreases |x|
  {
    if |x| < BLOCK then Plain([], true)
    else
      var b := Xor(c.dec(x[..BLOCK]), iv);
      if |x| < 2 * BLOCK then Strip(b)
      else
        var rest := Opened(c, x[..BLOCK], x[BLOCK..]);
        Plain(b + rest.bytes, rest.ok)
  }

  /** A trailing fragment shorter than a block is ignored. */
  lemma {:induction false} FragmentIgnored(c: Cipher, iv: Bytes, x: Bytes)
    requires IsCipher(c) && |iv| == BLOCK
    ensures Opened(c, iv, x) == Opened(c, iv, x[..|x| - |x| % BLOCK])
    decreases |x|
  {
    var whole := x[..|x| - |x| % BLOCK];
    if |x| >= 2 * BLOCK {
      FragmentIgnored(c, x[..BLOCK], x[BLOCK..]);
      assert whole[..BLOCK] == x[..BLOCK];
      assert whole[BLOCK..] == x[BLOCK..][..|x[BLOCK..]| - |x[BLOCK..]| % BLOCK];
    } else if |x| >= BLOCK {
      assert whole[..BLOCK] == x[..BLOCK];
    }
  }

  lemma {:induction false} PaddedTail(p: Bytes)
    requires |p| >= BLOCK
    ensures Padded(p)[..BLOCK] == p[..BLOCK] && Padded(p)[BLOCK..] == Padded(p[BLOCK..])
    ensures |Padded(p)| >= 2 * BLOCK
  {
    assert |p| % BLOCK == (|p| - BLOCK) % BLOCK;
    assert p == p[..BLOCK] + p[BLOCK..];
  }

  /** Opening undoes sealing, whatever the length of the plaintext. */
  lemma {:induction false} OpenSealed(c: Cipher, iv: Bytes, p: Bytes)
    requires IsCipher(c) && |iv| == BLOCK
    ensures Opened(c, iv, Sealed(c, iv, p)) == Plain(p, true)
    decreases |p|
  {
    var padded := Padded(p);
    var first := padded[..BLOCK];
    var b := c.enc(Xor(first, iv));
    XorTwice(first, iv);
    var x := Sealed(c, iv, p);
    assert x[..BLOCK] == b && x[BLOCK..] == Encrypt(c, b, padded[BLOCK..]);
    assert Xor(c.dec(b), iv) == first;
    if |p| < BLOCK {
      SmallPad(p);
    } else {
      PaddedTail(p);
      OpenSealed(c, b, p[BLOCK..]);
      assert p == p[..BLOCK] + p[BLOCK..];
    }
  }

  lemma {:induction false} SmallPad(p: Bytes)
    requires |p| < BLOCK
    ensures |Padded(p)| == BLOCK
    ensures Strip(Padded(p)) == Plain(p, true)
  {
    var pad := BLOCK - |p|;
    assert |p| % BLOCK == |p|;
    assert (pad as Byte) as int == pad;
    assert Padded(p)[BLOCK - 1] == pad as Byte;
  }

  // ---------------------------------------------------------------- ciphertexts cut short

  /** What is read of a plaintext whose ciphertext was cut after `w` bytes, whole blocks all. */
  function CutPlain(p: Bytes, w: nat): Plain
    requires w <= |p| && w % BLOCK == 0
  {
    if w == 0 then Plain([], true)
    else
      var pad := p[w - 1] as int;
      if 1 <= pad <= BLOCK then Plain(p[..w - pad], true) else Plain(p[..w - BLOCK], false)
  }

  lemma {:induction false} CutPlainTail(p: Bytes, w: nat)
    requires 2 * BLOCK <= w <= |p| && w % BLOCK == 0
    ensures CutPlain(p, w) == Plain(p[..BLOCK] + CutPlain(p[BLOCK..], w - BLOCK).bytes,
      CutPlain(p[BLOCK..], w - BLOCK).ok)
  {
    var q := p[BLOCK..];
    assert p[w - 1] == q[w - BLOCK - 1];
    assert forall k :: 0 <= k <= w - BLOCK ==> p[..BLOCK] + q[..k] == p[..BLOCK + k];
  }

  /** Sealing and opening take the first block alone. */
  lemma {:induction false} FirstBlock(c: Cipher, iv: Bytes, p: Bytes)
    requires IsCipher(c) && |iv| == BLOCK && |p| >= BLOCK
    ensures var x, b := Sealed(c, iv, p), c.enc(Xor(p[..BLOCK], iv));
      && |x| >= 2 * BLOCK && x[..BLOCK] == b && x[BLOCK..] == Sealed(c, b, p[BLOCK..])
      && Xor(c.dec(b), iv) == p[..BLOCK]
  {
    PaddedTail(p);
    XorTwice(p[..BLOCK], iv);
    var x, b := Sealed(c, iv, p), c.enc(Xor(p[..BLOCK], iv));
    assert x == b + Encrypt(c, b, Padded(p)[BLOCK..]);
  }

  lemma {:induction false} CutAtBlock(c: Cipher, iv: Bytes, p: Bytes, w: nat)
    requires IsCipher(c) && |iv| == BLOCK && w <= |p| && w % BLOCK == 0
    ensures w <= |Sealed(c, iv, p)| && Opened(c, iv, Sealed(c, iv, p)[..w]) == CutPlain(p, w)
    decreases w
  {
    if w > 0 {
      FirstBlock(c, iv, p);
      var x, b := Sealed(c, iv, p), c.enc(Xor(p[..BLOCK], iv));
      assert x[..w][..BLOCK] == b;
      if w == BLOCK {
        assert p[..BLOCK][BLOCK - 1] == p[w - 1];
        assert forall k :: 0 <= k <= BLOCK ==> p[..BLOCK][..k] == p[..k];
      } else {
        CutAtBlock(c, b, p[BLOCK..], w - BLOCK);
        assert x[..w][BLOCK..] == x[BLOCK..][..w - BLOCK];
        CutPlainTail(p, w);
      }
    }
  }

  lemma {:induction false} WholeCut(p: Bytes, n: nat)
    requires n < |Padded(p)|
    ensures n - n % BLOCK <= |p| && (n - n % BLOCK) % BLOCK == 0
  {
  }

  /**
   A ciphertext cut short reads as its plaintext up to the last whole block, less what that block's last
   byte says is padding. The cut goes unnoticed exactly when no block is left or that byte is from 1 to 16.
   */
  lemma {:induction false} CutShort(c: Cipher, iv: Bytes, p: Bytes, n: nat)
    requires IsCipher(c) && |iv| == BLOCK && n < |Sealed(c, iv, p)|
    ensures var w := n - n % BLOCK;
      && w <= |p| && Opened(c, iv, Sealed(c, iv, p)[..n]) == CutPlain(p, w)
      && (Opened(c, iv, Sealed(c, iv, p)[..n]).ok <==> w == 0 || 1 <= p[w - 1] as int <= BLOCK)
  {
    var x, w := Sealed(c, iv, p), n - n % BLOCK;
    WholeCut(p, n);
    FragmentIgnored(c, iv, x[..n]);
    assert x[..n][..w] == x[..w];
    CutAtBlock(c, iv, p, w);
  }

  // ---------------------------------------------------------------- the writer

  lemma {:induction false} PaddedWhole(sent: Bytes, pending: Bytes)
    requires Whole(sent)
    ensures Padded(sent + pending) == sent + Padded(pending)
  {
    assert |sent + pending| % BLOCK == |pending| % BLOCK;
  }

  /** Of the plaintext `accepted` all but `pending` is encrypted in `dst`, and `iv` is the chaining value that left. */
  ghost predicate Streamed(c: Cipher, start: Bytes, accepted: Bytes, iv: Bytes, pending: Bytes, dst: Bytes) {
    && IsCipher(c) && |start| == BLOCK
    && |pending| < BLOCK && |pending| <= |accepted| && accepted[|accepted| - |pending|..] == pending
    && var sent := accepted[..|accepted| - |pending|];
    Whole(sent) && dst == Encrypt(c, start, sent) && iv == Chained(c, start, sent)
  }

  function WholePart(buf: Bytes): (full: nat)
    ensures full <= |buf| && full % BLOCK == 0 && |buf| - full < BLOCK
  {
    |buf| - |buf| % BLOCK
  }

  /** Encrypting the whole blocks of what was pending and what is new. */
  lemma {:induction false} StreamedOn(c: Cipher, start: Bytes, accepted: Bytes, iv: Bytes, pending: Bytes, dst: Bytes,
      p: Bytes)
    requires Streamed(c, start, accepted, iv, pending, dst)
    ensures |iv| == BLOCK
    ensures var buf := pending + p; var full := WholePart(buf);
      Streamed(c, start, accepted + p, Chained(c, iv, buf[..full]), buf[full..], dst + Encrypt(c, iv, buf[..full]))
  {
    var sent, buf := accepted[..|accepted| - |pending|], pending + p;
    var full := WholePart(buf);
    EncryptConcat(c, start, sent, buf[..full]);
    SplitAccepted(accepted, sent, pending, p, full);
  }

  lemma {:induction false} SplitAccepted(accepted: Bytes, sent: Bytes, pending: Bytes, p: Bytes, full: nat)
    requires accepted == sent + pending && full <= |pending + p|
    ensures var all, buf := accepted + p, pending + p;
      all[..|all| - (|buf| - full)] == sent + buf[..full] && all[|all| - (|buf| - full)..] == buf[full..]
  {
    assert accepted + p == (sent + (pending + p)[..full]) + (pending + p)[full..];
  }

  /** The padded rest completes the sealed plaintext. */
  lemma {:induction false} StreamedAll(c: Cipher, start: Bytes, accepted: Bytes, iv: Bytes, pending: Bytes, dst: Bytes)
    requires Streamed(c, start, accepted, iv, pending, dst)
    ensures |iv| == BLOCK && dst + Encrypt(c, iv, Padded(pending)) == Sealed(c, start, accepted)
  {
    var sent := accepted[..|accepted| - |pending|];
    assert accepted == sent + pending;
    PaddedWhole(sent, pending);
    EncryptConcat(c, start, sent, Padded(pending));
  }

  function Taken(chunk: Bytes, n: nat): Bytes {
    if n < |chunk| then chunk[..n] else chunk
  }

  class BlockWriter {
    const cipher: Cipher
    const start: Bytes
    var iv: Bytes
    var pending: Bytes
    var dst: Bytes
    var closed: bool

    constructor (cipher: Cipher, iv: Bytes)
      requires IsCipher(cipher) && |iv| == BLOCK
      ensures this.cipher == cipher && start == iv && !closed && Ready() && Valid([])
    {
      this.cipher, start, this.iv := cipher, iv, iv;
      pending, dst, closed := [], [], false;
    }

    ghost predicate Ready()
      reads this
    {
      IsCipher(cipher) && |iv| == BLOCK
    }

    /** Everything accepted so far is in `dst` or waits in `pending`. */
    ghost predicate Valid(accepted: Bytes)
      reads this
    {
      Streamed(cipher, start, accepted, iv, pending, dst)
    }

    /**
     Buffers `p` and encrypts the whole blocks in place. The output may refuse them (`writeOk` false)
     after taking some bytes; they then stay in `pending`, encrypted, and a later Write encrypts them again.
     */
    method Write(p: Bytes, writeOk: bool, taken: nat, ghost accepted: Bytes) returns (n: nat, ok: bool)
      requires Ready()
      modifies this
      ensures Ready() && closed == old(closed)
      ensures var buf := old(pending) + p; var full := WholePart(buf);
        var chunk := Encrypt(cipher, old(iv), buf[..full]);
        && ok == (writeOk || full == 0) && n == (if ok then |p| else 0)
        && iv == Chained(cipher, old(iv), buf[..full])
        && dst == old(dst) + (if ok then chunk else Taken(chunk, taken))
        && pending == (if ok then [] else chunk) + buf[full..]
      ensures old(Valid(accepted)) && ok ==> Valid(accepted + p)
    {
      if Valid(accepted) {
        StreamedOn(cipher, start, accepted, iv, pending, dst, p);
      }
      var buf := pending + p;
      var full := WholePart(buf);
      pending := buf;
      if full > 0 {
        var chunk := Encrypt(cipher, iv, buf[..full]);
        iv := Chained(cipher, iv, buf[..full]);
        pending := chunk + buf[full..];
        if !writeOk {
          dst := dst + Taken(chunk, taken);
          return 0, false;
        }
        dst := dst + chunk;
        pending := pending[full..];
      } else {
        assert buf[..full] == [] && buf[full..] == buf;
        assert dst + [] == dst && [] + buf == buf;
      }
      return |p|, true;
    }

    /**
     Pads and sends the rest; the whole ciphertext is then the sealed plaintext. Padding may find room
     behind `pending` (`inPlace`), and encrypting then overwrites it.
     */
    method Close(writeOk: bool, taken: nat, inPlace: bool, ghost accepted: Bytes) returns (ok: bool)
      requires Ready()
      modifies this
      ensures Ready() && closed
      ensures ok <==> old(closed) || writeOk
      ensures old(closed) ==> dst == old(dst) && iv == old(iv) && pending == old(pending)
      ensures var last := Encrypt(cipher, old(iv), Padded(old(pending)));
        !old(closed) ==>
          && dst == old(dst) + (if ok then last else Taken(last, taken))
          && iv == Chained(cipher, old(iv), Padded(old(pending)))
          && pending == if inPlace then last[..|old(pending)|] else old(pending)
      ensures !old(closed) && old(Valid(accepted)) && ok ==> dst == Sealed(cipher, start, accepted)
    {
      if closed {
        return true;
      }
      if Valid(accepted) {
        StreamedAll(cipher, start, accepted, iv, pending, dst);
      }
      closed := true;
      var padded := Padded(pending);
      var last := Encrypt(cipher, iv, padded);
      iv := Chained(cipher, iv, padded);
      if inPlace {
        pending := last[..|pending|];
      }
      ok := writeOk;
      dst := dst + (if ok then last else Taken(last, taken));
    }
  }

  // ---------------------------------------------------------------- the reader

  datatype ReadResult = Data(bytes: Bytes) | Eof | BadPadding

  class BlockReader {
    const cipher: Cipher
    var iv: Bytes
    var src: Bytes
    var cur: Bytes
    var next: Option<Bytes>
    var eof: bool

    constructor (cipher: Cipher, iv: Bytes, src: Bytes)
      requires IsCipher(cipher) && |iv| == BLOCK
      ensures Valid() && this.cipher == cipher
      ensures Remaining() == Opened(cipher, iv, src)
    {
      this.cipher, this.iv, this.src := cipher, iv, src;
      cur, next, eof := [], None, false;
      new;
      assert Ahead() == src;
    }

    ghost predicate Valid()
      reads this
    {
      IsCipher(cipher) && |iv| == BLOCK && (next.Some? ==> |next.value| == BLOCK)
    }

    /** The ciphertext not decrypted yet. */
    ghost function Ahead(): Bytes
      reads this
    {
      (if next.Some? then next.value else []) + src
    }

    /** All that reading on will deliver. */
    ghost function Remaining(): Plain
      requires Valid()
      reads this
    {
      if eof then Plain(cur, true)
      else var rest := Opened(cipher, iv, Ahead()); Plain(cur + rest.bytes, rest.ok)
    }

    /** One block of input, if a whole one is left; the attempt uses up a shorter rest. */
    method ReadFull() returns (block: Option<Bytes>)
      modifies this`src
      ensures |old(src)| >= BLOCK ==> block == Some(old(src)[..BLOCK]) && src == old(src)[BLOCK..]
      ensures |old(src)| < BLOCK ==> block == None && src == []
    {
      if |src| < BLOCK {
        block, src := None, [];
      } else {
        block, src := Some(src[..BLOCK]), src[BLOCK..];
      }
    }

    /** Decrypts the block held back, once it is known whether another follows. */
    method Refill() returns (ok: bool)
      requires Valid() && cur == [] && !eof
      modifies this
      ensures ok ==> Valid() && Remaining() == old(Remaining())
      ensures ok ==> eof || |Ahead()| < |old(Ahead())|
      ensures !ok ==> old(Remaining()) == Plain([], false)
    {
      ghost var ahead := Ahead();
      if next.None? {
        var b := ReadFull();
        if b.None? {
          eof := true;
          return true;
        }
        next := b;
        assert Ahead() == ahead;
      }
      var block := next.value;
      var plain := Xor(cipher.dec(block), iv);
      var nb := ReadFull();
      assert ahead[..BLOCK] == block;
      if nb.None? {
        iv, next := block, Some(plain);
        var pad := plain[BLOCK - 1] as int;
        if pad < 1 || pad > BLOCK {
          return false;
        }
        cur, eof := plain[..BLOCK - pad], true;
        return true;
      }
      iv, cur, next := block, plain, nb;
      assert Ahead() == ahead[BLOCK..];
      return true;
    }

    /** Refills until there is plaintext to hand out or the input is used up. */
    method Advance() returns (ok: bool)
      requires Valid()
      modifies this
      ensures ok ==> Valid() && Remaining() == old(Remaining()) && (cur == [] ==> eof)
      ensures !ok ==> old(Remaining()) == Plain([], false)
    {
      ok := true;
      while cur == [] && !eof
        invariant Valid() && Remaining() == old(Remaining())
        decreases !eof, |Ahead()|
      {
        ok := Refill();
        if !ok {
          return;
        }
      }
    }

    /** Moves up to `size` bytes of the current block to the caller. */
    method Copy(size: nat) returns (bytes: Bytes)
      requires Valid() && cur != []
      modifies this`cur
      ensures Valid() && old(Remaining()) == Plain(bytes + Remaining().bytes, Remaining().ok)
      ensures |bytes| <= size && (size > 0 ==> bytes != [])
    {
      var n := if size < |cur| then size else |cur|;
      bytes := cur[..n];
      assert cur == bytes + cur[n..];
      if !eof {
        Assoc(bytes, cur[n..], Opened(cipher, iv, Ahead()).bytes);
      }
      cur := cur[n..];
    }

    /** Fills a buffer of `size` bytes with the next plaintext bytes. */
    method Read(size: nat) returns (r: ReadResult)
      requires Valid()
      modifies this
      ensures r.Data? ==> Valid() && old(Remaining()) == Plain(r.bytes + Remaining().bytes, Remaining().ok)
      ensures r.Data? ==> |r.bytes| <= size && (size > 0 ==> r.bytes != [])
      ensures r.Eof? ==> Valid() && old(Remaining()) == Remaining() == Plain([], true)
      ensures r.BadPadding? ==> old(Remaining()) == Plain([], false)
    {
      var ok := Advance();
      if !ok {
        return BadPadding;
      }
      if cur == [] {
        return Eof;
      }
      var bytes := Copy(size);
      return Data(bytes);
    }
  }

  // ---------------------------------------------------------------- end to end

  lemma {:induction false} Assoc(a: Bytes, b: Bytes, c: Bytes)
    ensures (a + b) + c == a + (b + c)
  {
  }

  lemma {:induction false} FlattenNext(chunks: seq<Bytes>, i: nat)
    requires i < |chunks|
    ensures Flatten(chunks[..i + 1]) == Flatten(chunks[..i]) + chunks[i]
  {
    FlattenSnoc(chunks[..i], chunks[i]);
    assert chunks[..i + 1] == chunks[..i] + [chunks[i]];
  }

  method WriteChunk(w: BlockWriter, chunk: Bytes, ghost accepted: Bytes)
    requires w.Ready() && w.Valid(accepted) && !w.closed
    modifies w
    ensures w.Ready() && w.Valid(accepted + chunk) && !w.closed
  {
    var n, ok := w.Write(chunk, true, 0, accepted);
  }

  method CloseWhole(w: BlockWriter, ghost accepted: Bytes)
    requires w.Ready() && w.Valid(accepted) && !w.closed
    modifies w
    ensures w.dst == Sealed(w.cipher, w.start, accepted)
  {
    var ok := w.Close(true, 0, false, accepted);
  }

  /** Whatever the chunks, the ciphertext is that of their concatenation. */
  method SealChunks(cipher: Cipher, iv: Bytes, chunks: seq<Bytes>) returns (sealed: Bytes)
    requires IsCipher(cipher) && |iv| == BLOCK
    ensures sealed == Sealed(cipher, iv, Flatten(chunks))
  {
    var w := new BlockWriter(cipher, iv);
    for i := 0 to |chunks|
      invariant w.Ready() && w.Valid(Flatten(chunks[..i])) && !w.closed
      invariant w.cipher == cipher && w.start == iv
    {
      WriteChunk(w, chunks[i], Flatten(chunks[..i]));
      FlattenNext(chunks, i);
    }
    assert chunks[..|chunks|] == chunks;
    CloseWhole(w, Flatten(chunks));
    sealed := w.dst;
  }

  /** Whatever the buffer sizes, reading to the end delivers what the ciphertext holds. */
  method OpenAll(cipher: Cipher, iv: Bytes, sealed: Bytes, sizes: nat -> nat) returns (got: Plain)
    requires IsCipher(cipher) && |iv| == BLOCK
    requires forall k :: sizes(k) > 0
    ensures got == Opened(cipher, iv, sealed)
  {
    var r := new BlockReader(cipher, iv, sealed);
    got := ReadAll(r, sizes);
  }

  method ReadAll(r: BlockReader, sizes: nat -> nat) returns (got: Plain)
    requires r.Valid()
    requires forall k :: sizes(k) > 0
    modifies r
    ensures got == old(r.Remaining())
  {
    ghost var all := r.Remaining();
    got := Plain([], true);
    var k := 0;
    while true
      invariant r.Valid() && got.ok
      invariant all.bytes == got.bytes + r.Remaining().bytes && all.ok == r.Remaining().ok
      decreases |r.Remaining().bytes|
    {
      var d := r.Read(sizes(k));
      match d {
        case Data(bytes) =>
          Assoc(got.bytes, bytes, r.Remaining().bytes);
          got := Plain(got.bytes + bytes, true);
        case Eof => return;
        case BadPadding => return Plain(got.bytes, false);
      }
      k := k + 1;
    }
  }

  /** The round trip: any plaintext, any chunks written, any buffers read. */
  method Transfer(cipher: Cipher, iv: Bytes, chunks: seq<Bytes>, sizes: nat -> nat) returns (got: Plain)
    requires IsCipher(cipher) && |iv| == BLOCK
    requires forall k :: sizes(k) > 0
    ensures got == Plain(Flatten(chunks), true)
  {
    var sealed := SealChunks(cipher, iv, chunks);
    got := OpenAll(cipher, iv, sealed, sizes);
    OpenSealed(cipher, iv, Flatten(chunks));
  }
}
