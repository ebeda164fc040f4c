/** pkg/crypto/keys.go: the address of a public key, "dmail:" + Base58(key || checksum). */
module Address {
  import opened Bytes
  import Base58

  const ADDRESS_PREFIX := "dmail:"
  const KEY_SIZE := 32
  const CHECKSUM_SIZE := 4

  datatype AddressError = MissingPrefix | NotBase58(cause: Base58.DecodeError) | WrongLength(got: nat) | WrongChecksum

  function Of(sha256: bytes -> Digest, pubKey: bytes): string {
    ADDRESS_PREFIX + Base58.Encode(pubKey + sha256(pubKey)[..CHECKSUM_SIZE])
  }

  function Parse(sha256: bytes -> Digest, addr: string): Result<bytes, AddressError> {
    if !(ADDRESS_PREFIX <= addr) then Err(MissingPrefix)
    else match Base58.Decode(addr[|ADDRESS_PREFIX|..])
      case Err(e) => Err(NotBase58(e))
      case Ok(decoded) =>
        if |decoded| != KEY_SIZE + CHECKSUM_SIZE then Err(WrongLength(|decoded|))
        else if decoded[KEY_SIZE..] != sha256(decoded[..KEY_SIZE])[..CHECKSUM_SIZE] then Err(WrongChecksum)
        else Ok(decoded[..KEY_SIZE])
  }

  /** An address parses to a key exactly when it is that 32-byte key's own address: one spelling a key. */
  lemma ParseInvertsOf(sha256: bytes -> Digest, addr: string, key: bytes)
    ensures Parse(sha256, addr) == Ok(key) <==> |key| == KEY_SIZE && addr == Of(sha256, key)
  {
    if |key| == KEY_SIZE {
      ParseOfAddress(sha256, key);
    }
    if Parse(sha256, addr) == Ok(key) {
      AddressOfParsed(sha256, addr);
    }
  }

  lemma ParseOfAddress(sha256: bytes -> Digest, key: bytes)
    requires |key| == KEY_SIZE
    ensures Parse(sha256, Of(sha256, key)) == Ok(key)
  {
    var payload := key + sha256(key)[..CHECKSUM_SIZE];
    assert Of(sha256, key)[|ADDRESS_PREFIX|..] == Base58.Encode(payload);
    Base58.DecodeOfEncode(payload);
    assert payload[..KEY_SIZE] == key;
    assert payload[KEY_SIZE..] == sha256(key)[..CHECKSUM_SIZE];
  }

  lemma {:induction false} AddressOfParsed(sha256: bytes -> Digest, addr: string)
    requires Parse(sha256, addr).Ok?
    ensures |Parse(sha256, addr).value| == KEY_SIZE
    ensures Of(sha256, Parse(sha256, addr).value) == addr
  {
    var spelled := addr[|ADDRESS_PREFIX|..];
    Base58.EncodeOfDecode(spelled);
    Reassembles(sha256, addr, Base58.Decode(spelled).value);
  }

  lemma Reassembles(sha256: bytes -> Digest, addr: string, decoded: bytes)
    requires ADDRESS_PREFIX <= addr
    requires Base58.Encode(decoded) == addr[|ADDRESS_PREFIX|..]
    requires |decoded| == KEY_SIZE + CHECKSUM_SIZE
    requires decoded[KEY_SIZE..] == sha256(decoded[..KEY_SIZE])[..CHECKSUM_SIZE]
    ensures Of(sha256, decoded[..KEY_SIZE]) == addr
  {
    assert decoded[..KEY_SIZE] + decoded[KEY_SIZE..] == decoded;
    assert ADDRESS_PREFIX + addr[|ADDRESS_PREFIX|..] == addr;
  }

  /** The string is the prefix and the Base58 spelling of some bytes. */
  ghost predicate SpellsAfterPrefix(addr: string, b: bytes) {
    b != [] && addr == "dmail:" + Base58.Encode(b)
  }

  /** The refusals in the order prefix, alphabet, length, checksum. */
  lemma RefusedExactly(sha256: bytes -> Digest, addr: string, got: nat)
    ensures var r := Parse(sha256, addr);
      && (r == Err(MissingPrefix) <==> !("dmail:" <= addr))
      && (r.Err? && r.error.NotBase58? <==>
            && "dmail:" <= addr
            && (addr == "dmail:" || exists i :: 6 <= i < |addr| && addr[i] !in Base58.ALPHABET))
      && (r == Err(WrongLength(got)) <==> exists b: bytes :: SpellsAfterPrefix(addr, b) && |b| == got != 36)
      && (r == Err(WrongChecksum) <==> exists b: bytes :: SpellsAfterPrefix(addr, b) && |b| == 36 && b[32..] != sha256(b[..32])[..4])
  {
    hide Base58.Decode, SpellsAfterPrefix;
    forall b: bytes
      ensures SpellsAfterPrefix(addr, b) <==> "dmail:" <= addr && Base58.Decode(addr[|ADDRESS_PREFIX|..]) == Ok(b)
    {
      SpelledDecodes(addr, b);
    }
    if "dmail:" <= addr { ForeignCharacter(addr); }
  }

  lemma SpelledDecodes(addr: string, b: bytes)
    ensures SpellsAfterPrefix(addr, b) <==> "dmail:" <= addr && Base58.Decode(addr[|ADDRESS_PREFIX|..]) == Ok(b)
  {
    hide Base58.Decode, Base58.Encode;
    if "dmail:" <= addr {
      assert addr == "dmail:" + addr[6..];
      Base58.DecodesExactly(addr[6..], b);
      Base58.DecodeOfEncode([]);
    }
    if SpellsAfterPrefix(addr, b) {
      assert addr[6..] == Base58.Encode(b);
      Base58.DecodeOfEncode(b);
    }
  }

  lemma ForeignCharacter(addr: string)
    requires "dmail:" <= addr
    ensures Base58.Decode(addr[|ADDRESS_PREFIX|..]).Err? <==>
            addr == "dmail:" || exists i :: 6 <= i < |addr| && addr[i] !in Base58.ALPHABET
  {
    hide Base58.Decode, Base58.Encode;
    var rest := addr[6..];
    Base58.DecodesExactly(rest, []);
    assert addr == "dmail:" + rest;
    if i :| 6 <= i < |addr| && addr[i] !in Base58.ALPHABET {
      assert rest[i - 6] == addr[i];
    }
    if i :| 0 <= i < |rest| && rest[i] !in Base58.ALPHABET {
      assert addr[i + 6] == rest[i];
    }
  }

  /** Keys of any length, 32 bytes or not, never share an address. */
  lemma OfIsInjective(sha256: bytes -> Digest, a: bytes, b: bytes)
    requires Of(sha256, a) == Of(sha256, b)
    ensures a == b
  {
    var pa, pb := a + sha256(a)[..CHECKSUM_SIZE], b + sha256(b)[..CHECKSUM_SIZE];
    assert Base58.Encode(pa) == Of(sha256, a)[|ADDRESS_PREFIX|..];
    assert Base58.Encode(pb) == Of(sha256, b)[|ADDRESS_PREFIX|..];
    Base58.DecodeOfEncode(pa);
    Base58.DecodeOfEncode(pb);
    assert pa[..|pa| - CHECKSUM_SIZE] == a;
    assert pb[..|pb| - CHECKSUM_SIZE] == b;
  }

  /** Address: the key and the first four hash bytes are copied into one buffer. */
  method Address(sha256: bytes -> Digest, pubKey: bytes) returns (addr: string)
    ensures addr == Of(sha256, pubKey)
  {
    var checksum := sha256(pubKey);
    var payload := new byte[|pubKey| + CHECKSUM_SIZE](_ => 0);
    forall i | 0 <= i < |pubKey| {
      payload[i] := pubKey[i];
    }
    forall i | 0 <= i < CHECKSUM_SIZE {
      payload[|pubKey| + i] := checksum[i];
    }
    assert payload[..] == pubKey + checksum[..CHECKSUM_SIZE];
    addr := ADDRESS_PREFIX + Base58.Encode(payload[..]);
  }

  /** PubKeyFromAddress: the four checksum bytes are compared one by one. */
  method PubKeyFromAddress(sha256: bytes -> Digest, addr: string) returns (r: Result<bytes, AddressError>)
    ensures r == Parse(sha256, addr)
  {
    hide Base58.Decode;
    if |addr| < |ADDRESS_PREFIX| || addr[..|ADDRESS_PREFIX|] != ADDRESS_PREFIX {
      return Err(MissingPrefix);
    }
    var result := Base58.Decode(addr[|ADDRESS_PREFIX|..]);
    if result.Err? {
      return Err(NotBase58(result.error));
    }
    var decoded := result.value;
    if |decoded| != 36 {
      return Err(WrongLength(|decoded|));
    }
    var pubKey, checksum := decoded[..32], decoded[32..];
    var expected := sha256(pubKey);
    var i := 0;
    while i < 4
      invariant 0 <= i <= 4
      invariant checksum[..i] == expected[..i]
    {
      if checksum[i] != expected[i] {
        assert checksum != expected[..CHECKSUM_SIZE] by {
          assert expected[..CHECKSUM_SIZE][i] == expected[i];
        }
        return Err(WrongChecksum);
      }
      assert checksum[..i + 1] == checksum[..i] + [checksum[i]];
      assert expected[..i + 1] == expected[..i] + [expected[i]];
      i := i + 1;
    }
    assert checksum == checksum[..4];
    return Ok(pubKey);
  }

  /** An address is the prefix and the Base58 spelling of key and first four hash bytes as one number. */
  lemma AddressSpellsKeyAndChecksum(sha256: bytes -> Digest, key: bytes)
    ensures var a, text := Of(sha256, key), key + sha256(key)[..4];
      "dmail:" <= a && a[6..] == Base58.Encode(text) && Base58.Writes(a[6..], BigEndianValue(text))
  {
    var text := key + sha256(key)[..4];
    var zeros := LeadingZeroBytes(text);
    Base58.EncodingIsBase58(text, zeros);
    assert Of(sha256, key)[6..] == Base58.Encode(text);
  }

  lemma {:induction false} LeadingZeroBytes(b: bytes) returns (zeros: nat)
    ensures zeros <= |b| && (forall i :: 0 <= i < zeros ==> b[i] == 0) && (zeros < |b| ==> b[zeros] != 0)
  {
    if b == [] || b[0] != 0 {
      zeros := 0;
    } else {
      var rest := LeadingZeroBytes(b[1..]);
      zeros := rest + 1;
    }
  }
}
