/** The launch data handed to Guacamole: a 32-byte MAC and the JSON payload, padded as in
    section 6.3 of RFC 5652 and chained as in section 6.2 of NIST SP 800-38A, with a zero
    first block. The block cipher and the MAC are arbitrary functions. */
module Wire {
  import opened Options

  const BLOCK_SIZE := 16

  const MAC_SIZE := 32

  function Xor(a: seq<bv8>, b: seq<bv8>): (r: seq<bv8>)
    requires |a| == |b|
    ensures |r| == |a|
  {
    seq(|a|, i requires 0 <= i < |a| => a[i] ^ b[i])
  }

  lemma XorTwice(a: seq<bv8>, b: seq<bv8>)
    requires |a| == |b|
    ensures Xor(Xor(a, b), b) == a
  {
    forall i | 0 <= i < |a| ensures (a[i] ^ b[i]) ^ b[i] == a[i] {
    }
  }

  function Zero(): seq<bv8> {
    seq(BLOCK_SIZE, _ => 0 as bv8)
  }

  /** A cipher that works block by block, and one that undoes it. */
  ghost predicate KeepsBlocks(cipher: seq<bv8> -> seq<bv8>) {
    forall b {:trigger cipher(b)} | |b| == BLOCK_SIZE :: |cipher(b)| == BLOCK_SIZE
  }

  ghost predicate Undoes(decrypt: seq<bv8> -> seq<bv8>, encrypt: seq<bv8> -> seq<bv8>) {
    forall b {:trigger decrypt(encrypt(b))} | |b| == BLOCK_SIZE :: decrypt(encrypt(b)) == b
  }

  /** CBC: each block is combined with the ciphertext before it. */
  ghost function Chained(encrypt: seq<bv8> -> seq<bv8>, previous: seq<bv8>, plain: seq<bv8>): (r: seq<bv8>)
    requires KeepsBlocks(encrypt) && |previous| == BLOCK_SIZE && |plain| % BLOCK_SIZE == 0
    ensures |r| == |plain|
    decreases |plain|
  {
    if plain == [] then []
    else
      var c := encrypt(Xor(plain[..BLOCK_SIZE], previous));
      c + Chained(encrypt, c, plain[BLOCK_SIZE..])
  }

  lemma ChainedStep(encrypt: seq<bv8> -> seq<bv8>, previous: seq<bv8>, plain: seq<bv8>)
    requires KeepsBlocks(encrypt) && |previous| == BLOCK_SIZE && |plain| % BLOCK_SIZE == 0 && plain != []
    ensures |plain| >= 16
    ensures var c := encrypt(Xor(plain[..16], previous));
      |c| == 16 && Chained(encrypt, previous, plain) == c + Chained(encrypt, c, plain[16..])
  {
  }

  lemma SecondPart(a: seq<bv8>, b: seq<bv8>, k: nat)
    requires |a| == 16 && 0 < k && 16 * k <= |b|
    ensures (a + b)[16 * k..16 * k + 16] == b[16 * (k - 1)..16 * (k - 1) + 16]
  {
  }

  /** Each block of the ciphertext, by the one before it. */
  lemma {:induction false} ChainedAt(encrypt: seq<bv8> -> seq<bv8>, previous: seq<bv8>, plain: seq<bv8>, k: nat)
    requires KeepsBlocks(encrypt) && |previous| == BLOCK_SIZE && |plain| % BLOCK_SIZE == 0
    requires 16 * k + 16 <= |plain|
    ensures var out := Chained(encrypt, previous, plain);
      out[16 * k..16 * k + 16]
      == encrypt(Xor(plain[16 * k..16 * k + 16], if k == 0 then previous else out[16 * (k - 1)..16 * (k - 1) + 16]))
    decreases k
  {
    hide Chained, Xor, KeepsBlocks;
    ChainedStep(encrypt, previous, plain);
    var first, rest := plain[..16], plain[16..];
    var c := encrypt(Xor(first, previous));
    var inner := Chained(encrypt, c, rest);
    if k > 0 {
      ChainedAt(encrypt, c, rest, k - 1);
      assert plain == first + rest;
      SecondPart(first, rest, k);
      SecondPart(c, inner, k);
      if k > 1 { SecondPart(c, inner, k - 1); }
    }
  }

  ghost function Unchained(decrypt: seq<bv8> -> seq<bv8>, previous: seq<bv8>, data: seq<bv8>): (r: seq<bv8>)
    requires |previous| == BLOCK_SIZE && |data| % BLOCK_SIZE == 0
    decreases |data|
  {
    if data == [] then []
    else
      var block := decrypt(data[..BLOCK_SIZE]);
      (if |block| == BLOCK_SIZE then Xor(block, previous) else block)
      + Unchained(decrypt, data[..BLOCK_SIZE], data[BLOCK_SIZE..])
  }

  /** Decrypting the first block of c + rest, where c encrypts first. */
  lemma UnchainedStep(encrypt: seq<bv8> -> seq<bv8>, decrypt: seq<bv8> -> seq<bv8>,
                      previous: seq<bv8>, first: seq<bv8>, rest: seq<bv8>)
    requires KeepsBlocks(encrypt) && Undoes(decrypt, encrypt)
    requires |previous| == |first| == BLOCK_SIZE && |rest| % BLOCK_SIZE == 0
    ensures var c := encrypt(Xor(first, previous));
      |c| == BLOCK_SIZE && Unchained(decrypt, previous, c + rest) == first + Unchained(decrypt, c, rest)
  {
    var c := encrypt(Xor(first, previous));
    assert (c + rest)[..BLOCK_SIZE] == c && (c + rest)[BLOCK_SIZE..] == rest;
    XorTwice(first, previous);
  }

  lemma EmptyUnchained(decrypt: seq<bv8> -> seq<bv8>, previous: seq<bv8>)
    requires |previous| == BLOCK_SIZE
    ensures Unchained(decrypt, previous, []) == []
  {
  }

  lemma {:induction false} UnchainedChained(encrypt: seq<bv8> -> seq<bv8>, decrypt: seq<bv8> -> seq<bv8>,
                                            previous: seq<bv8>, plain: seq<bv8>)
    requires KeepsBlocks(encrypt) && Undoes(decrypt, encrypt)
    requires |previous| == BLOCK_SIZE && |plain| % BLOCK_SIZE == 0
    ensures Unchained(decrypt, previous, Chained(encrypt, previous, plain)) == plain
    decreases |plain|
  {
    hide Unchained;
    if plain == [] {
      EmptyUnchained(decrypt, previous);
    } else {
      var first, tail := plain[..BLOCK_SIZE], plain[BLOCK_SIZE..];
      var c := encrypt(Xor(first, previous));
      UnchainedStep(encrypt, decrypt, previous, first, Chained(encrypt, c, tail));
      UnchainedChained(encrypt, decrypt, c, tail);
      assert plain == first + tail;
    }
  }

  // ----- Padding -----

  function PadLength(n: nat): (r: nat)
    ensures 1 <= r <= BLOCK_SIZE && (n + r) % BLOCK_SIZE == 0
  {
    BLOCK_SIZE - n % BLOCK_SIZE
  }

  function Padding(n: nat): (r: seq<bv8>)
    ensures |r| == PadLength(n)
  {
    seq(PadLength(n), _ => PadLength(n) as bv8)
  }

  lemma PaddingBytes(n: nat)
    ensures forall b | b in Padding(n) :: b as nat == |Padding(n)|
  {
  }

  /** What a receiver does: the last byte says how many equal bytes to drop. */
  function Unpadded(data: seq<bv8>): Option<seq<bv8>> {
    if data == [] then None
    else
      var n := data[|data| - 1] as nat;
      if 1 <= n <= BLOCK_SIZE && n <= |data| && (forall i | |data| - n <= i < |data| :: data[i] as nat == n)
      then Some(data[..|data| - n]) else None
  }

  lemma UnpaddedPadded(plain: seq<bv8>)
    ensures Unpadded(plain + Padding(|plain|)) == Some(plain)
  {
    var data := plain + Padding(|plain|);
    var n := PadLength(|plain|);
    forall i | |plain| <= i < |data| ensures data[i] as nat == n {
      assert data[i] == Padding(|plain|)[i - |plain|];
    }
    assert data[..|plain|] == plain;
  }

  // ----- The message -----

  ghost function Signed(mac: seq<bv8> -> seq<bv8>, encrypt: seq<bv8> -> seq<bv8>, payload: seq<bv8>): seq<bv8>
    requires KeepsBlocks(encrypt)
  {
    var plain := mac(payload) + payload;
    Chained(encrypt, Zero(), plain + Padding(|plain|))
  }

  /** The message before it is encrypted: the MAC, the payload, and one to sixteen bytes that
      each hold their own number, up to a full block. */
  ghost predicate Prepared(mac: seq<bv8>, payload: seq<bv8>, plain: seq<bv8>) {
    var n := |mac| + |payload|;
    && |plain| % 16 == 0 && n < |plain| <= n + 16 && plain[..n] == mac + payload
    && forall i | n <= i < |plain| :: plain[i] as nat == |plain| - n
  }

  /** Block k of plain, combined bit by bit with block k - 1 of out unless k is 0. */
  function Combined(plain: seq<bv8>, out: seq<bv8>, k: nat): seq<bv8>
    requires 16 * k + 16 <= |plain| == |out|
  {
    seq(16, j requires 0 <= j < 16 => if k == 0 then plain[j] else plain[16 * k + j] ^ out[16 * (k - 1) + j])
  }

  ghost predicate BlockAt(encrypt: seq<bv8> -> seq<bv8>, plain: seq<bv8>, out: seq<bv8>, k: nat)
    requires 16 * k + 16 <= |plain| == |out|
  {
    out[16 * k..16 * k + 16] == encrypt(Combined(plain, out, k))
  }

  /** out is what a CBC encrypter with a zero first block makes of plain. */
  ghost predicate IsCbc(encrypt: seq<bv8> -> seq<bv8>, plain: seq<bv8>, out: seq<bv8>) {
    |out| == |plain| && forall k: nat | 16 * k + 16 <= |plain| :: BlockAt(encrypt, plain, out, k)
  }

  lemma XorZero(a: seq<bv8>)
    requires |a| == BLOCK_SIZE
    ensures Xor(a, Zero()) == a
  {
    forall i | 0 <= i < |a| ensures a[i] ^ 0 == a[i] {
    }
  }

  lemma CombinedIsXor(plain: seq<bv8>, out: seq<bv8>, k: nat)
    requires 16 * k + 16 <= |plain| == |out|
    ensures Xor(plain[16 * k..16 * k + 16], if k == 0 then Zero() else out[16 * (k - 1)..16 * (k - 1) + 16])
            == Combined(plain, out, k)
  {
    var block := plain[16 * k..16 * k + 16];
    if k == 0 {
      XorZero(block);
    } else {
      var before := out[16 * (k - 1)..16 * (k - 1) + 16];
      forall j | 0 <= j < 16 ensures Xor(block, before)[j] == Combined(plain, out, k)[j] {
        assert block[j] == plain[16 * k + j] && before[j] == out[16 * (k - 1) + j];
      }
    }
  }

  lemma ChainedIsCbc(encrypt: seq<bv8> -> seq<bv8>, plain: seq<bv8>)
    requires KeepsBlocks(encrypt) && |plain| % BLOCK_SIZE == 0
    ensures IsCbc(encrypt, plain, Chained(encrypt, Zero(), plain))
  {
    hide Xor, Combined, Chained;
    var out := Chained(encrypt, Zero(), plain);
    forall k: nat | 16 * k + 16 <= |plain| ensures BlockAt(encrypt, plain, out, k) {
      ChainedAt(encrypt, Zero(), plain, k);
      CombinedIsXor(plain, out, k);
    }
  }

  lemma PaddingPrepares(mac: seq<bv8>, payload: seq<bv8>)
    ensures Prepared(mac, payload, mac + payload + Padding(|mac + payload|))
  {
    var message, pad := mac + payload, Padding(|mac + payload|);
    PaddingBytes(|message|);
    hide Padding, PadLength;
    assert (message + pad)[..|message|] == message;
  }

  /** Decrypt, unpad, and split off the MAC. */
  ghost function Received(decrypt: seq<bv8> -> seq<bv8>, data: seq<bv8>): Option<(seq<bv8>, seq<bv8>)> {
    if |data| % BLOCK_SIZE != 0 then None
    else
      var plain := Unpadded(Unchained(decrypt, Zero(), data));
      if plain.None? || |plain.value| < MAC_SIZE then None
      else Some((plain.value[..MAC_SIZE], plain.value[MAC_SIZE..]))
  }

  /** The receiver gets back exactly the MAC and the payload, whatever their bytes. */
  lemma ReceivedSigned(mac: seq<bv8> -> seq<bv8>, encrypt: seq<bv8> -> seq<bv8>, decrypt: seq<bv8> -> seq<bv8>,
                       payload: seq<bv8>)
    requires KeepsBlocks(encrypt) && Undoes(decrypt, encrypt) && |mac(payload)| == MAC_SIZE
    ensures Received(decrypt, Signed(mac, encrypt, payload)) == Some((mac(payload), payload))
  {
    var plain := mac(payload) + payload;
    UnchainedChained(encrypt, decrypt, Zero(), plain + Padding(|plain|));
    UnpaddedPadded(plain);
    assert plain[..MAC_SIZE] == mac(payload) && plain[MAC_SIZE..] == payload;
  }

  /** Distinct payloads give distinct messages. */
  lemma SignedIsInjective(mac: seq<bv8> -> seq<bv8>, encrypt: seq<bv8> -> seq<bv8>, decrypt: seq<bv8> -> seq<bv8>,
                          a: seq<bv8>, b: seq<bv8>)
    requires KeepsBlocks(encrypt) && Undoes(decrypt, encrypt) && |mac(a)| == |mac(b)| == MAC_SIZE
    requires Signed(mac, encrypt, a) == Signed(mac, encrypt, b)
    ensures a == b
  {
    ReceivedSigned(mac, encrypt, decrypt, a);
    ReceivedSigned(mac, encrypt, decrypt, b);
  }

  /** CryptBlocks of a CBC encrypter whose first block is zero. */
  method CryptBlocks(encrypt: seq<bv8> -> seq<bv8>, plain: seq<bv8>) returns (out: seq<bv8>)
    requires KeepsBlocks(encrypt) && |plain| % BLOCK_SIZE == 0
    ensures out == Chained(encrypt, Zero(), plain)
    ensures IsCbc(encrypt, plain, out)
  {
    out := [];
    var previous := Zero();
    var i := 0;
    while i < |plain|
      invariant 0 <= i <= |plain| && i % BLOCK_SIZE == 0 && |previous| == BLOCK_SIZE
      invariant out + Chained(encrypt, previous, plain[i..]) == Chained(encrypt, Zero(), plain)
    {
      assert |plain[i..]| % BLOCK_SIZE == 0 && |plain[i..]| >= BLOCK_SIZE;
      assert plain[i..][..BLOCK_SIZE] == plain[i..i + BLOCK_SIZE]
          && plain[i..][BLOCK_SIZE..] == plain[i + BLOCK_SIZE..];
      previous := encrypt(Xor(plain[i..i + BLOCK_SIZE], previous));
      out := out + previous;
      i := i + BLOCK_SIZE;
    }
    ChainedIsCbc(encrypt, plain);
  }

  /** signedData up to its base64 form. */
  method SignedData(mac: seq<bv8> -> seq<bv8>, encrypt: seq<bv8> -> seq<bv8>, payload: seq<bv8>) returns (out: seq<bv8>)
    requires KeepsBlocks(encrypt)
    ensures out == Signed(mac, encrypt, payload)
    ensures exists plain :: Prepared(mac(payload), payload, plain) && IsCbc(encrypt, plain, out)
  {
    var plain := mac(payload) + payload;
    ghost var message := plain;
    var padding := BLOCK_SIZE - |plain| % BLOCK_SIZE;
    for j := 0 to padding
      invariant plain == message + Padding(|message|)[..j]
    {
      plain := plain + [padding as bv8];
    }
    assert Padding(|message|)[..padding] == Padding(|message|);
    PaddingPrepares(mac(payload), payload);
    hide Prepared, IsCbc;
    out := CryptBlocks(encrypt, plain);
  }
}
