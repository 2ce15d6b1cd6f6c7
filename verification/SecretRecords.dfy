/** The encrypted record that keeps a device's secret: encrypt-then-MAC over a counter keystream. */
module SecretRecords {
  import opened Common

  type Byte = bv8
  type Bytes = seq<Byte>
  type Mac = (Bytes, Bytes) -> Bytes

  const VERSION: Bytes := [0x67, 0x31]
  const NONCE_BYTES := 16
  const TAG_BYTES := 16
  const BLOCK := 32

  /** The keys derived from the master key, the keyed hash, and the text coding, none of them looked into. */
  datatype Suite = Suite(encKey: Bytes, macKey: Bytes, mac: Mac, encode: Bytes -> string,
                         decode: string -> Option<Bytes>)

  /** A keyed hash has 32 bytes and the text coding can be undone. */
  ghost predicate Sound(s: Suite) {
    && (forall k, m :: |s.mac(k, m)| == BLOCK)
    && (forall b :: s.decode(s.encode(b)) == Some(b))
  }

  /** The low bytes of a number, most significant first. */
  function BigEndian(n: nat, width: nat): Bytes {
    if width == 0 then [] else BigEndian(n / 0x100, width - 1) + [(n % 0x100) as Byte]
  }

  function Block(s: Suite, nonce: Bytes, n: nat): Bytes { s.mac(s.encKey, nonce + BigEndian(n, 4)) }

  /** The first n blocks of a stream, one after the other. */
  function Blocks(stream: nat -> Bytes, n: nat): Bytes {
    if n == 0 then [] else Blocks(stream, n - 1) + stream(n - 1)
  }

  lemma {:induction false} BlocksLength(stream: nat -> Bytes, n: nat)
    requires forall i :: |stream(i)| == BLOCK
    ensures |Blocks(stream, n)| == BLOCK * n
  {
    if n == 0 {
    } else {
      BlocksLength(stream, n - 1);
    }
  }

  lemma {:induction false} BlocksPrefix(stream: nat -> Bytes, m: nat, n: nat)
    requires m <= n
    ensures Blocks(stream, m) <= Blocks(stream, n)
  {
    if m == n {
    } else {
      BlocksPrefix(stream, m, n - 1);
    }
  }

  function Stream(s: Suite, nonce: Bytes): nat -> Bytes { (n: nat) => Block(s, nonce, n) }

  /** The first bytes of the endless stream of blocks. */
  ghost function Keystream(s: Suite, nonce: Bytes, length: nat): (k: Bytes)
    requires Sound(s)
    ensures |k| == length
  {
    BlocksLength(Stream(s, nonce), length);
    Blocks(Stream(s, nonce), length)[..length]
  }

  /** A shorter stream is the beginning of a longer one. */
  lemma KeystreamPrefix(s: Suite, nonce: Bytes, short: nat, long: nat)
    requires Sound(s) && short <= long
    ensures Keystream(s, nonce, short) == Keystream(s, nonce, long)[..short]
  {
    BlocksPrefix(Stream(s, nonce), short, long);
    BlocksLength(Stream(s, nonce), short);
  }

  // ----- The stream, byte by byte -----

  /** A number below 2^32 as four bytes, most significant first. */
  function FourBytes(n: nat): Bytes {
    [(n / 0x100_0000 % 0x100) as Byte, (n / 0x1_0000 % 0x100) as Byte, (n / 0x100 % 0x100) as Byte, (n % 0x100) as Byte]
  }

  lemma ByteWorth(n: int)
    requires 0 <= n < 0x100
    ensures (n as Byte) as int == n
  {
    assert (n as Byte) as int <= n;
    assert (n as Byte) as int >= n;
  }

  lemma FourDigits(n: nat)
    requires n < 0x1_0000_0000
    ensures n / 0x100_0000 % 0x100 * 0x100_0000 + n / 0x1_0000 % 0x100 * 0x1_0000
              + n / 0x100 % 0x100 * 0x100 + n % 0x100 == n
  {
    var a := n / 0x100;
    var b := a / 0x100;
    var c := b / 0x100;
    assert b == n / 0x1_0000 && c == n / 0x100_0000 && c < 0x100;
    assert n == a * 0x100 + n % 0x100 && a == b * 0x100 + a % 0x100 && b == c * 0x100 + b % 0x100;
  }

  /** The four bytes are worth the number, so different numbers have different bytes. */
  lemma FourBytesWorth(n: nat)
    requires n < 0x1_0000_0000
    ensures var b := FourBytes(n);
      (b[0] as int) * 0x100_0000 + (b[1] as int) * 0x1_0000 + (b[2] as int) * 0x100 + b[3] as int == n
  {
    ByteWorth(n / 0x100_0000 % 0x100);
    ByteWorth(n / 0x1_0000 % 0x100);
    ByteWorth(n / 0x100 % 0x100);
    ByteWorth(n % 0x100);
    FourDigits(n);
  }

  lemma CountersDiffer(m: nat, n: nat)
    requires m < n < 0x1_0000_0000
    ensures FourBytes(m) != FourBytes(n)
  {
    FourBytesWorth(m);
    FourBytesWorth(n);
  }

  lemma CounterBytes(n: nat)
    ensures BigEndian(n, 4) == FourBytes(n)
  {
    Quotients(n);
    assert BigEndian(n, 4) == BigEndian(n / 0x100, 3) + [(n % 0x100) as Byte];
    assert BigEndian(n / 0x100, 3) == BigEndian(n / 0x1_0000, 2) + [(n / 0x100 % 0x100) as Byte];
    assert BigEndian(n / 0x1_0000, 2) == BigEndian(n / 0x100_0000, 1) + [(n / 0x1_0000 % 0x100) as Byte];
    assert BigEndian(n / 0x100_0000, 1) == BigEndian(n / 0x100_0000 / 0x100, 0) + [(n / 0x100_0000 % 0x100) as Byte];
  }

  lemma Quotients(n: nat)
    ensures n / 0x100 / 0x100 == n / 0x1_0000 && n / 0x1_0000 / 0x100 == n / 0x100_0000
  {
  }

  /** Byte i of the stream: byte i % 32 of the keyed hash of the nonce and the number i / 32. */
  ghost function KeyByte(s: Suite, nonce: Bytes, i: nat): Byte
    requires Sound(s)
  {
    s.mac(s.encKey, nonce + FourBytes(i / 32))[i % 32]
  }

  lemma PlaceInBlock(i: nat, n: nat)
    requires n > 0
    ensures i < 32 * (n - 1) ==> i / 32 < n - 1
    ensures 32 * (n - 1) <= i < 32 * n ==> i / 32 == n - 1 && i % 32 == i - 32 * (n - 1)
  {
  }

  lemma {:induction false} BlocksAt(stream: nat -> Bytes, n: nat, i: nat)
    requires (forall k :: |stream(k)| == BLOCK) && i < BLOCK * n
    ensures |Blocks(stream, n)| == BLOCK * n && Blocks(stream, n)[i] == stream(i / 32)[i % 32]
  {
    BlocksLength(stream, n);
    BlocksLength(stream, n - 1);
    PlaceInBlock(i, n);
    if i < BLOCK * (n - 1) {
      BlocksAt(stream, n - 1, i);
    }
  }

  lemma KeystreamAt(s: Suite, nonce: Bytes, length: nat, i: nat)
    requires Sound(s) && i < length
    ensures Keystream(s, nonce, length)[i] == KeyByte(s, nonce, i)
  {
    BlocksLength(Stream(s, nonce), length);
    BlocksAt(Stream(s, nonce), length, i);
    CounterBytes(i / 32);
  }

  lemma OneMoreBlock(s: Suite, nonce: Bytes, out: Bytes, counter: nat, length: nat)
    requires Sound(s) && out == Blocks(Stream(s, nonce), counter) && |out| == BLOCK * counter < length
    ensures var more := out + Block(s, nonce, counter);
      more == Blocks(Stream(s, nonce), counter + 1) && |more| == BLOCK * (counter + 1)
    ensures counter + 1 <= length
  {
    BlocksLength(Stream(s, nonce), counter + 1);
  }

  lemma EnoughBlocks(s: Suite, nonce: Bytes, out: Bytes, counter: nat, length: nat)
    requires Sound(s) && out == Blocks(Stream(s, nonce), counter) && counter <= length <= |out|
    ensures out[..length] == Keystream(s, nonce, length)
  {
    BlocksPrefix(Stream(s, nonce), counter, length);
    BlocksLength(Stream(s, nonce), length);
  }

  /** The loop stops with the first block that is enough, and what it returns is the stream. */
  method MakeKeystream(s: Suite, nonce: Bytes, length: nat) returns (key: Bytes)
    requires Sound(s)
    ensures key == Keystream(s, nonce, length) && |key| == length
    ensures forall i :: 0 <= i < length ==> key[i] == KeyByte(s, nonce, i)
  {
    var out: Bytes := [];
    var counter := 0;
    while |out| < length
      invariant out == Blocks(Stream(s, nonce), counter) && |out| == BLOCK * counter && counter <= length
      decreases length - counter
    {
      OneMoreBlock(s, nonce, out, counter, length);
      out := out + Block(s, nonce, counter);
      counter := counter + 1;
    }
    EnoughBlocks(s, nonce, out, counter, length);
    key := out[..length];
    forall i | 0 <= i < length ensures key[i] == KeyByte(s, nonce, i) {
      KeystreamAt(s, nonce, length, i);
    }
  }

  /** Position by position, as far as the shorter goes. */
  function Xor(a: Bytes, b: Bytes): (r: Bytes) {
    seq(if |a| < |b| then |a| else |b|, i requires 0 <= i < |a| && i < |b| => a[i] ^ b[i])
  }

  lemma XorBytes(a: Byte, b: Byte)
    ensures a ^ b ^ b == a
  {
  }

  lemma XorTwice(a: Bytes, k: Bytes)
    requires |a| == |k|
    ensures Xor(Xor(a, k), k) == a
  {
    forall i | 0 <= i < |a| ensures Xor(Xor(a, k), k)[i] == a[i] {
      XorBytes(a[i], k[i]);
    }
  }

  function Tag(s: Suite, head: Bytes): Bytes
    requires |s.mac(s.macKey, head)| >= TAG_BYTES
  {
    s.mac(s.macKey, head)[..TAG_BYTES]
  }

  /** What a record of a secret under a nonce is, without saying how it is made. */
  ghost predicate IsRecord(s: Suite, blob: Bytes, secret: Bytes, nonce: Bytes)
    requires Sound(s)
  {
    && |nonce| == NONCE_BYTES
    && var head := VERSION + nonce + Xor(secret, Keystream(s, nonce, |secret|));
       blob == head + Tag(s, head)
  }

  /** A record of a secret: two bytes of version, sixteen of nonce, the secret under the stream, and the first sixteen
      bytes of the keyed hash of all that. */
  ghost predicate RecordBytes(s: Suite, blob: Bytes, secret: Bytes, nonce: Bytes)
    requires Sound(s)
  {
    && |nonce| == 16 && |blob| == 34 + |secret|
    && blob[0] == 0x67 && blob[1] == 0x31 && blob[2..18] == nonce
    && (forall i :: 0 <= i < |secret| ==> blob[18 + i] ^ secret[i] == KeyByte(s, nonce, i))
    && blob[|blob| - 16..] == s.mac(s.macKey, blob[..|blob| - 16])[..16]
  }

  lemma XorBack(a: Byte, b: Byte, k: Byte)
    ensures a == b ^ k <==> a ^ b == k
  {
  }

  predicate Masked(body: Bytes, secret: Bytes, key: Bytes) {
    |body| == |secret| == |key| && forall i :: 0 <= i < |secret| ==> body[i] ^ secret[i] == key[i]
  }

  lemma XorIsMasked(secret: Bytes, key: Bytes)
    requires |secret| == |key|
    ensures Masked(Xor(secret, key), secret, key)
  {
    forall i | 0 <= i < |secret| ensures Xor(secret, key)[i] ^ secret[i] == key[i] {
      XorBack(Xor(secret, key)[i], secret[i], key[i]);
    }
  }

  lemma MaskedIsXor(body: Bytes, secret: Bytes, key: Bytes)
    requires Masked(body, secret, key)
    ensures body == Xor(secret, key)
  {
    forall i | 0 <= i < |secret| ensures body[i] == Xor(secret, key)[i] {
      XorBack(body[i], secret[i], key[i]);
    }
  }

  lemma StreamBytes(s: Suite, nonce: Bytes, length: nat)
    requires Sound(s)
    ensures forall i :: 0 <= i < length ==> Keystream(s, nonce, length)[i] == KeyByte(s, nonce, i)
  {
    forall i | 0 <= i < length ensures Keystream(s, nonce, length)[i] == KeyByte(s, nonce, i) {
      KeystreamAt(s, nonce, length, i);
    }
  }

  lemma BlobParts(blob: Bytes, nonce: Bytes, body: Bytes, tag: Bytes)
    requires blob == VERSION + nonce + body + tag && |nonce| == 16 && |tag| == 16
    ensures |blob| == 34 + |body| && blob[0] == 0x67 && blob[1] == 0x31 && blob[2..18] == nonce
    ensures blob[18..|blob| - 16] == body && blob[..|blob| - 16] == VERSION + nonce + body && blob[|blob| - 16..] == tag
  {
  }

  lemma MaskedBytes(s: Suite, blob: Bytes, body: Bytes, secret: Bytes, key: Bytes, nonce: Bytes)
    requires Sound(s) && |blob| == 34 + |body| && blob[18..|blob| - 16] == body && Masked(body, secret, key)
    requires forall i :: 0 <= i < |secret| ==> key[i] == KeyByte(s, nonce, i)
    ensures forall i :: 0 <= i < |secret| ==> blob[18 + i] ^ secret[i] == KeyByte(s, nonce, i)
  {
    forall i | 0 <= i < |secret| ensures blob[18 + i] ^ secret[i] == KeyByte(s, nonce, i) {
      assert blob[18..|blob| - 16][i] == body[i] && body[i] ^ secret[i] == key[i];
    }
  }

  lemma RecordHasBytes(s: Suite, blob: Bytes, secret: Bytes, nonce: Bytes)
    requires Sound(s) && IsRecord(s, blob, secret, nonce)
    ensures RecordBytes(s, blob, secret, nonce)
  {
    var key := Keystream(s, nonce, |secret|);
    var body := Xor(secret, key);
    StreamBytes(s, nonce, |secret|);
    XorIsMasked(secret, key);
    BlobParts(blob, nonce, body, Tag(s, VERSION + nonce + body));
    MaskedBytes(s, blob, body, secret, key, nonce);
  }

  lemma BytesAreRecord(s: Suite, blob: Bytes, secret: Bytes, nonce: Bytes)
    requires Sound(s) && RecordBytes(s, blob, secret, nonce)
    ensures IsRecord(s, blob, secret, nonce)
  {
    var (n, key) := (|secret|, Keystream(s, nonce, |secret|));
    var body := blob[18..18 + n];
    StreamBytes(s, nonce, n);
    forall i | 0 <= i < n ensures body[i] ^ secret[i] == key[i] {
      assert body[i] == blob[18 + i];
    }
    MaskedIsXor(body, secret, key);
    assert blob[..18 + n] == VERSION + nonce + body;
    assert blob == blob[..18 + n] + blob[18 + n..];
  }

  /** What a record is made of, byte by byte, and nothing else is one. */
  lemma RecordIsBytes(s: Suite, blob: Bytes, secret: Bytes, nonce: Bytes)
    requires Sound(s)
    ensures IsRecord(s, blob, secret, nonce) <==> RecordBytes(s, blob, secret, nonce)
  {
    if IsRecord(s, blob, secret, nonce) {
      RecordHasBytes(s, blob, secret, nonce);
    }
    if RecordBytes(s, blob, secret, nonce) {
      BytesAreRecord(s, blob, secret, nonce);
    }
  }

  method EncryptSecret(s: Suite, secret: Bytes, nonce: Bytes) returns (record: string)
    requires Sound(s) && |nonce| == NONCE_BYTES
    ensures exists blob :: RecordBytes(s, blob, secret, nonce) && record == s.encode(blob)
  {
    var key := MakeKeystream(s, nonce, |secret|);
    var body := Xor(secret, key);
    var tag := Tag(s, VERSION + nonce + body);
    var blob := VERSION + nonce + body + tag;
    RecordIsBytes(s, blob, secret, nonce);
    record := s.encode(blob);
  }

  datatype Opened = Secret(bytes: Bytes) | Broken | UnknownFormat | WrongKey

  ghost function Open(s: Suite, record: string): Opened
    requires Sound(s)
  {
    match s.decode(record)
    case None => Broken
    case Some(blob) => OpenBlob(s, blob)
  }

  ghost function OpenBlob(s: Suite, blob: Bytes): Opened
    requires Sound(s)
  {
    var n := |blob|;
    if n <= |VERSION| + NONCE_BYTES + TAG_BYTES || blob[..2] != VERSION then UnknownFormat
    else if blob[n - TAG_BYTES..] != Tag(s, blob[..2] + blob[2..18] + blob[18..n - TAG_BYTES]) then WrongKey
    else Secret(Xor(blob[18..n - TAG_BYTES], Keystream(s, blob[2..18], n - 34)))
  }

  method DecryptSecret(s: Suite, record: string) returns (result: Opened)
    requires Sound(s)
    ensures result == Open(s, record)
    ensures result.Broken? <==> s.decode(record).None?
    ensures s.decode(record).Some? ==>
      var blob := s.decode(record).value;
      var known := |blob| > 34 && blob[0] == 0x67 && blob[1] == 0x31;
      && (result.UnknownFormat? <==> !known)
      && (result.WrongKey? <==> known && blob[|blob| - 16..] != s.mac(s.macKey, blob[..|blob| - 16])[..16])
  {
    var decoded := s.decode(record);
    if decoded.None? {
      return Broken;
    }
    var blob := decoded.value;
    var n := |blob|;
    if n <= |VERSION| + NONCE_BYTES + TAG_BYTES || blob[..2] != VERSION {
      return UnknownFormat;
    }
    var nonce := blob[2..2 + NONCE_BYTES];
    var body := blob[2 + NONCE_BYTES..n - TAG_BYTES];
    var tag := blob[n - TAG_BYTES..];
    assert blob[..2] + nonce + body == blob[..n - 16];
    if tag != Tag(s, blob[..2] + nonce + body) {
      return WrongKey;
    }
    var key := MakeKeystream(s, nonce, |body|);
    return Secret(Xor(body, key));
  }

  lemma RecordParts(s: Suite, blob: Bytes, secret: Bytes, nonce: Bytes)
    requires Sound(s) && IsRecord(s, blob, secret, nonce)
    ensures |blob| == 34 + |secret| && blob[..2] == VERSION && blob[2..18] == nonce
    ensures blob[18..|blob| - TAG_BYTES] == Xor(secret, Keystream(s, nonce, |secret|))
    ensures blob[|blob| - TAG_BYTES..] == Tag(s, blob[..2] + blob[2..18] + blob[18..|blob| - TAG_BYTES])
  {
    var body := Xor(secret, Keystream(s, nonce, |secret|));
    var head := VERSION + nonce + body;
    assert blob[..2] + blob[2..18] + blob[18..|blob| - TAG_BYTES] == head;
  }

  lemma OpensRecord(s: Suite, blob: Bytes, secret: Bytes, nonce: Bytes)
    requires Sound(s) && IsRecord(s, blob, secret, nonce)
    ensures OpenBlob(s, blob) == if secret == [] then UnknownFormat else Secret(secret)
  {
    RecordParts(s, blob, secret, nonce);
    XorTwice(secret, Keystream(s, nonce, |secret|));
  }

  lemma OpenedIsRecord(s: Suite, blob: Bytes, secret: Bytes)
    requires Sound(s) && OpenBlob(s, blob) == Secret(secret)
    ensures secret != [] && IsRecord(s, blob, secret, blob[2..18])
  {
    var n := |blob|;
    var (nonce, body) := (blob[2..18], blob[18..n - TAG_BYTES]);
    var key := Keystream(s, nonce, n - 34);
    XorTwice(body, key);
    assert blob == VERSION + nonce + body + blob[n - TAG_BYTES..];
  }

  /** A record opens to a secret exactly when it is a record of that secret, under some nonce, and the
      secret is not empty. */
  lemma OpensExactly(s: Suite, record: string, secret: Bytes)
    requires Sound(s)
    ensures Open(s, record) == Secret(secret) <==>
      s.decode(record).Some? && secret != [] && exists nonce :: RecordBytes(s, s.decode(record).value, secret, nonce)
  {
    if s.decode(record).Some? {
      var blob := s.decode(record).value;
      if OpenBlob(s, blob) == Secret(secret) {
        OpenedIsRecord(s, blob, secret);
        RecordIsBytes(s, blob, secret, blob[2..18]);
      }
      forall nonce | RecordBytes(s, blob, secret, nonce) ensures secret != [] ==> OpenBlob(s, blob) == Secret(secret) {
        RecordIsBytes(s, blob, secret, nonce);
        OpensRecord(s, blob, secret, nonce);
      }
    }
  }

  /** Decrypting what was encrypted gives the secret back, unless it was empty. */
  lemma RoundTrip(s: Suite, secret: Bytes, nonce: Bytes, blob: Bytes)
    requires Sound(s) && RecordBytes(s, blob, secret, nonce)
    ensures Open(s, s.encode(blob)) == if secret == [] then UnknownFormat else Secret(secret)
  {
    RecordIsBytes(s, blob, secret, nonce);
    OpensRecord(s, blob, secret, nonce);
  }
}
