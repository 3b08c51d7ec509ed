/**
 Decrypting GRP_TXT packets (channel_backfill.py, `decrypt_group_text`). AES, HMAC, SHA-256 and
 UTF-8 decoding are parameters; the one law assumed is that decryption undoes encryption.
 */
module GroupText {
  import opened Bytes

  /** `mac` is the two-byte truncation; `hash` the channel hash byte of a secret. */
  datatype Crypto = Crypto(
    hash: Bytes -> byte,
    mac: (Bytes, Bytes) -> Bytes,
    encrypt: (Bytes, Bytes) -> Bytes,
    decrypt: (Bytes, Bytes) -> Bytes,
    decode: Bytes -> string)

  ghost predicate Lawful(c: Crypto) {
    && (forall k, x :: |c.mac(k, x)| == 2)
    && (forall k, x :: |c.decrypt(k, x)| == |x|)
    && (forall k, x :: |x| % 16 == 0 ==> |c.encrypt(k, x)| == |x| && c.decrypt(k, c.encrypt(k, x)) == x)
  }

  /** A channel id with its secret; the table maps a hash byte to the candidates in order. */
  datatype Keyed = Keyed(channel: int, secret: Bytes)

  type Secrets = map<byte, seq<Keyed>>

  datatype Found = Found(channel: int, timestamp: nat, text: string)

  // ---------------------------------------------------------------- stripping NULs

  function TrimLeft<T(==)>(s: seq<T>, z: T): seq<T> {
    if s != [] && s[0] == z then TrimLeft(s[1..], z) else s
  }

  function TrimRight<T(==)>(s: seq<T>, z: T): seq<T> {
    if s != [] && s[|s| - 1] == z then TrimRight(s[..|s| - 1], z) else s
  }

  /** `strip(z)`. */
  function Strip<T(==)>(s: seq<T>, z: T): seq<T> {
    TrimRight(TrimLeft(s, z), z)
  }

  predicate Stripped<T(==)>(s: seq<T>, z: T) {
    s == [] || (s[0] != z && s[|s| - 1] != z)
  }

  function Repeat<T>(n: nat, z: T): seq<T> {
    if n == 0 then [] else Repeat(n - 1, z) + [z]
  }

  lemma {:induction false} RepeatLength<T>(n: nat, z: T)
    ensures |Repeat(n, z)| == n && forall i :: 0 <= i < n ==> Repeat(n, z)[i] == z
  {
    if n > 0 {
      RepeatLength(n - 1, z);
    }
  }

  lemma {:induction false} StripPadding<T>(s: seq<T>, n: nat, z: T)
    requires Stripped(s, z)
    ensures Strip(s + Repeat(n, z), z) == s
    decreases n
  {
    if s == [] {
      assert s + Repeat(n, z) == Repeat(n, z);
      TrimLeftAll(n, z);
    } else {
      assert TrimLeft(s + Repeat(n, z), z) == s + Repeat(n, z);
      TrimRightPadding(s, n, z);
    }
  }

  lemma {:induction false} TrimLeftAll<T>(n: nat, z: T)
    ensures TrimLeft(Repeat(n, z), z) == []
  {
    RepeatLength(n, z);
    if n > 0 {
      RepeatLength(n - 1, z);
      assert Repeat(n, z)[1..] == Repeat(n - 1, z);
      TrimLeftAll(n - 1, z);
    }
  }

  lemma {:induction false} TrimRightPadding<T>(s: seq<T>, n: nat, z: T)
    requires s != [] && s[|s| - 1] != z
    ensures TrimRight(s + Repeat(n, z), z) == s
    decreases n
  {
    if n == 0 {
      assert s + [] == s;
    } else {
      var padded := s + Repeat(n, z);
      assert padded[..|padded| - 1] == s + Repeat(n - 1, z);
      TrimRightPadding(s, n - 1, z);
    }
  }

  // ---------------------------------------------------------------- decrypting

  /** Cut out of a well-formed body: hash byte, MAC, whole cipher blocks (at least one). */
  predicate WellFormed(body: Bytes) {
    |body| >= 3 + 16 && (|body| - 3) % 16 == 0
  }

  predicate Verifies(c: Crypto, body: Bytes, k: Keyed)
    requires WellFormed(body)
  {
    c.mac(k.secret, body[3..]) == body[1..3]
  }

  /** The plaintext is timestamp, one type byte, text padded with NULs. */
  function Read(c: Crypto, body: Bytes, k: Keyed): Option<Found>
    requires WellFormed(body)
  {
    var plain := c.decrypt(k.secret, body[3..]);
    if |plain| < 5 then None
    else Some(Found(k.channel, FromLE32(plain[..4]), c.decode(Strip(plain[5..], 0))))
  }

  /** `n` is the position of the first candidate whose MAC verifies. */
  predicate FirstVerifying(c: Crypto, body: Bytes, keys: seq<Keyed>, n: nat)
    requires WellFormed(body)
  {
    n < |keys| && Verifies(c, body, keys[n]) && forall i :: 0 <= i < n ==> !Verifies(c, body, keys[i])
  }

  function Candidates(body: Bytes, secrets: Secrets): seq<Keyed>
    requires body != []
  {
    if body[0] in secrets then secrets[body[0]] else []
  }

  /** What a search from candidate `i` on finds. */
  function Search(c: Crypto, body: Bytes, keys: seq<Keyed>, i: nat): Option<Found>
    requires WellFormed(body) && i <= |keys|
    decreases |keys| - i
  {
    if i == |keys| then None
    else if Verifies(c, body, keys[i]) then Read(c, body, keys[i])
    else Search(c, body, keys, i + 1)
  }

  function Decrypt(c: Crypto, body: Bytes, secrets: Secrets): Option<Found> {
    if !WellFormed(body) then None else Search(c, body, Candidates(body, secrets), 0)
  }

  method DecryptGroupText(c: Crypto, body: Bytes, secrets: Secrets) returns (found: Option<Found>)
    ensures found == Decrypt(c, body, secrets)
  {
    if |body| < 3 + 16 {
      return None;
    }
    var mac, cipher := body[1..3], body[3..];
    if |cipher| % 16 != 0 {
      return None;
    }
    var keys := Candidates(body, secrets);
    for i := 0 to |keys|
      invariant Search(c, body, keys, i) == Search(c, body, keys, 0)
    {
      if c.mac(keys[i].secret, cipher) != mac {
        continue;
      }
      return Read(c, body, keys[i]);
    }
    return None;
  }

  /** A result comes from the first candidate under the packet's hash byte whose MAC verifies. */
  lemma {:induction false} SearchMeaning(c: Crypto, body: Bytes, keys: seq<Keyed>, i: nat)
    requires Lawful(c) && WellFormed(body) && i <= |keys|
    requires forall j :: 0 <= j < i ==> !Verifies(c, body, keys[j])
    ensures forall n: nat :: FirstVerifying(c, body, keys, n) ==> Search(c, body, keys, i) == Read(c, body, keys[n])
    ensures Search(c, body, keys, i).Some? <==> exists n: nat :: FirstVerifying(c, body, keys, n)
    decreases |keys| - i
  {
    if i < |keys| {
      if Verifies(c, body, keys[i]) {
        assert FirstVerifying(c, body, keys, i);
      } else {
        SearchMeaning(c, body, keys, i + 1);
      }
    }
  }

  /** Nothing is attributed without a MAC that verifies, and the first one that does decides. */
  lemma DecryptMeaning(c: Crypto, body: Bytes, secrets: Secrets)
    requires Lawful(c)
    ensures Decrypt(c, body, secrets).Some? <==>
              WellFormed(body) && exists n: nat :: FirstVerifying(c, body, Candidates(body, secrets), n)
    ensures WellFormed(body) ==>
              forall n: nat :: FirstVerifying(c, body, Candidates(body, secrets), n) ==>
                Decrypt(c, body, secrets) == Read(c, body, Candidates(body, secrets)[n])
  {
    if WellFormed(body) {
      SearchMeaning(c, body, Candidates(body, secrets), 0);
    }
  }

  /**
   In bytes: something is found exactly when the body has a hash byte, two MAC bytes and one or more
   whole blocks, and a secret under the hash byte has just these MAC bytes for the blocks.
   */
  lemma DecryptInBytes(c: Crypto, body: Bytes, secrets: Secrets)
    requires Lawful(c)
    ensures Decrypt(c, body, secrets).Some? <==>
              && |body| >= 19 && (|body| - 3) % 16 == 0 && body[0] in secrets
              && exists k :: k in secrets[body[0]] && c.mac(k.secret, body[3..]) == [body[1], body[2]]
  {
    DecryptMeaning(c, body, secrets);
    if WellFormed(body) {
      var keys := Candidates(body, secrets);
      assert body[1..3] == [body[1], body[2]];
      if k :| k in keys && c.mac(k.secret, body[3..]) == [body[1], body[2]] {
        var i :| 0 <= i < |keys| && keys[i] == k;
        SomeFirst(c, body, keys, i);
      }
      if n: nat :| FirstVerifying(c, body, keys, n) {
        assert keys[n] in keys;
      }
    }
  }

  lemma {:induction false} SomeFirst(c: Crypto, body: Bytes, keys: seq<Keyed>, i: nat)
    requires WellFormed(body) && i < |keys| && Verifies(c, body, keys[i])
    ensures exists n: nat :: FirstVerifying(c, body, keys, n)
  {
    if j: nat :| j < i && Verifies(c, body, keys[j]) {
      SomeFirst(c, body, keys, j);
    } else {
      assert FirstVerifying(c, body, keys, i);
    }
  }

  // ---------------------------------------------------------------- round trip

  function Plain(timestamp: nat, kind: byte, text: Bytes): Bytes
    requires timestamp < 0x1_0000_0000
  {
    var unpadded := LE32(timestamp) + [kind] + text;
    unpadded + Repeat((16 - |unpadded| % 16) % 16, 0)
  }

  /** The body of a GRP_TXT packet as a sender builds it; `kind` is the type byte, which the daemon ignores. */
  function Encrypted(c: Crypto, secret: Bytes, timestamp: nat, kind: byte, text: Bytes): Bytes
    requires timestamp < 0x1_0000_0000
  {
    var cipher := c.encrypt(secret, Plain(timestamp, kind, text));
    [c.hash(secret)] + c.mac(secret, cipher) + cipher
  }

  lemma PlainIsPadded(timestamp: nat, kind: byte, text: Bytes)
    requires timestamp < 0x1_0000_0000
    ensures |Plain(timestamp, kind, text)| >= 16 && |Plain(timestamp, kind, text)| % 16 == 0
    ensures Plain(timestamp, kind, text)[..4] == LE32(timestamp)
    ensures Plain(timestamp, kind, text)[5..] == text + Repeat((16 - (5 + |text|) % 16) % 16, 0)
  {
    hide LE32, Repeat;
    var zero: byte := 0;
    var padding := Repeat((16 - (5 + |text|) % 16) % 16, zero);
    RepeatLength((16 - (5 + |text|) % 16) % 16, zero);
    assert Plain(timestamp, kind, text) == LE32(timestamp) + [kind] + (text + padding);
  }

  lemma EncryptedReads(c: Crypto, secret: Bytes, timestamp: nat, kind: byte, text: Bytes, channel: int)
    requires Lawful(c) && timestamp < 0x1_0000_0000 && Stripped(text, 0)
    ensures var body := Encrypted(c, secret, timestamp, kind, text);
      && WellFormed(body) && body[0] == c.hash(secret)
      && Verifies(c, body, Keyed(channel, secret))
      && Read(c, body, Keyed(channel, secret)) == Some(Found(channel, timestamp, c.decode(text)))
  {
    var plain := Plain(timestamp, kind, text);
    PlainIsPadded(timestamp, kind, text);
    StripPadding(text, (16 - (5 + |text|) % 16) % 16, 0);
    hide Plain, Strip;
    var body, cipher := Encrypted(c, secret, timestamp, kind, text), c.encrypt(secret, plain);
    assert body[3..] == cipher;
    assert body[1..3] == c.mac(secret, cipher);
  }

  /**
   A packet encrypted under a known secret is attributed to that secret's channel, with its
   timestamp and text, whatever else the table holds, unless an earlier candidate under the same
   hash byte has a MAC that verifies too; then that one's channel is reported.
   */
  lemma GroupTextRoundTrip(c: Crypto, secrets: Secrets, k: Keyed, n: nat, timestamp: nat, kind: byte, text: Bytes)
    requires Lawful(c) && timestamp < 0x1_0000_0000 && Stripped(text, 0)
    requires c.hash(k.secret) in secrets && n < |secrets[c.hash(k.secret)]| && secrets[c.hash(k.secret)][n] == k
    ensures
      var keys, body := secrets[c.hash(k.secret)], Encrypted(c, k.secret, timestamp, kind, text);
      && WellFormed(body)
      && ((forall i :: 0 <= i < n ==> !Verifies(c, body, keys[i])) ==>
            Decrypt(c, body, secrets) == Some(Found(k.channel, timestamp, c.decode(text))))
      && (forall i: nat :: i < n && FirstVerifying(c, body, keys, i) ==>
            Decrypt(c, body, secrets) == Read(c, body, keys[i]))
  {
    hide Encrypted, Lawful;
    EncryptedReads(c, k.secret, timestamp, kind, text, k.channel);
    DecryptMeaning(c, Encrypted(c, k.secret, timestamp, kind, text), secrets);
  }
}
