/** pkg/names/names.go: name syntax, and building and checking a name registration record. */
module Names {
  import opened Bytes
  import opened Messages
  import opened Crypto
  import Packet
  import Pow

  const NAME_DIFFICULTY: uint32 := 28
  const RESERVED: set<string> := {
    "admin", "root", "system", "dmail", "postmaster", "abuse", "support", "help",
    "null", "nobody", "daemon", "mailer-daemon"
  }

  datatype NameError = BadLength | NotLowercase | BadCharacters | DoubleHyphen | Reserved

  // ---------- syntax ----------

  predicate IsAlnum(c: char) {
    'a' <= c <= 'z' || '0' <= c <= '9'
  }

  function LowerChar(c: char): char {
    if 'A' <= c <= 'Z' then (c as int + 32) as char else c
  }

  /** strings.ToLower on ASCII. */
  function ToLower(s: string): (r: string)
    ensures |r| == |s|
  {
    seq(|s|, i requires 0 <= i < |s| => LowerChar(s[i]))
  }

  /** The expression ^[a-z0-9][a-z0-9-]*[a-z0-9]$. */
  predicate MatchesNameRegex(s: string) {
    && |s| >= 2 && IsAlnum(s[0]) && IsAlnum(s[|s| - 1])
    && forall i :: 0 <= i < |s| ==> IsAlnum(s[i]) || s[i] == '-'
  }

  predicate HasDoubleHyphen(s: string) {
    exists i :: 0 <= i < |s| - 1 && s[i] == '-' && s[i + 1] == '-'
  }

  function ValidateName(name: string): Result<(), NameError> {
    if |name| < 3 || |name| > 32 then Err(BadLength)
    else if name != ToLower(name) then Err(NotLowercase)
    else if !MatchesNameRegex(name) then Err(BadCharacters)
    else if HasDoubleHyphen(name) then Err(DoubleHyphen)
    else if name in RESERVED then Err(Reserved)
    else Ok(())
  }

  /** A nonempty run of lowercase letters and digits. */
  predicate IsLabel(s: string) {
    s != "" && forall i :: 0 <= i < |s| ==> IsAlnum(s[i])
  }

  predicate AreLabels(labels: seq<string>) {
    labels != [] && forall i :: 0 <= i < |labels| ==> IsLabel(labels[i])
  }

  function JoinHyphen(labels: seq<string>): string
    requires labels != []
  {
    if |labels| == 1 then labels[0] else labels[0] + "-" + JoinHyphen(labels[1..])
  }

  ghost predicate IsHyphenated(name: string) {
    exists labels: seq<string> :: AreLabels(labels) && JoinHyphen(labels) == name
  }

  /** No hyphen at either end and no two in a row. */
  predicate HyphensSeparate(s: string) {
    && s != "" && IsAlnum(s[0]) && IsAlnum(s[|s| - 1])
    && (forall i :: 0 <= i < |s| ==> IsAlnum(s[i]) || s[i] == '-')
    && !HasDoubleHyphen(s)
  }

  /** The accepted names are the unreserved strings of 3 to 32 characters made of hyphen-joined labels. */
  lemma ValidNamesAreLabels(name: string)
    ensures ValidateName(name) == Ok(()) <==>
            3 <= |name| <= 32 && name !in RESERVED && IsHyphenated(name)
  {
    hide JoinHyphen;
    if HyphensSeparate(name) {
      var labels := SplitLabels(name);
    }
    if IsHyphenated(name) {
      var labels: seq<string> :| AreLabels(labels) && JoinHyphen(labels) == name;
      JoinedSeparates(labels);
      assert ToLower(name) == name;
    }
  }

  /** Which error a refused name gets: the first of length, case, characters, hyphens and reservation that fails. */
  lemma RefusedNames(name: string)
    ensures var r, fits := ValidateName(name), 3 <= |name| <= 32;
      var lower := forall i :: 0 <= i < |name| ==> !('A' <= name[i] <= 'Z');
      var plain := |name| > 0 && name[0] != '-' && name[|name| - 1] != '-'
        && forall i :: 0 <= i < |name| ==> 'a' <= name[i] <= 'z' || '0' <= name[i] <= '9' || name[i] == '-';
      var single := forall i :: 0 <= i < |name| - 1 ==> name[i] != '-' || name[i + 1] != '-';
      && (r == Err(BadLength) <==> !fits)
      && (r == Err(NotLowercase) <==> fits && !lower)
      && (r == Err(BadCharacters) <==> fits && lower && !plain)
      && (r == Err(DoubleHyphen) <==> fits && plain && !single)
      && (r == Err(Reserved) <==>
            && fits && plain && single
            && name in {"admin", "root", "system", "dmail", "postmaster", "abuse", "support", "help",
                        "null", "nobody", "daemon", "mailer-daemon"})
  {
    LowerIsKept(name);
    EndsArePlain(name);
    hide ToLower, MatchesNameRegex;
  }

  lemma LowerIsKept(s: string)
    ensures s == ToLower(s) <==> forall i :: 0 <= i < |s| ==> !('A' <= s[i] <= 'Z')
  {
    if s == ToLower(s) {
      forall i | 0 <= i < |s|
        ensures !('A' <= s[i] <= 'Z')
      {
        assert s[i] == ToLower(s)[i];
      }
    }
  }

  lemma EndsArePlain(s: string)
    ensures |s| >= 2 ==>
              (MatchesNameRegex(s) <==>
               && s[0] != '-' && s[|s| - 1] != '-'
               && forall i :: 0 <= i < |s| ==> 'a' <= s[i] <= 'z' || '0' <= s[i] <= '9' || s[i] == '-')
  {
  }

  lemma {:induction false} JoinedSeparates(labels: seq<string>)
    requires AreLabels(labels)
    ensures HyphensSeparate(JoinHyphen(labels))
  {
    assert IsLabel(labels[0]);
    if |labels| > 1 {
      assert forall i :: 0 <= i < |labels[1..]| ==> IsLabel(labels[1..][i]);
      JoinedSeparates(labels[1..]);
      PrefixedSeparates(labels[0], JoinHyphen(labels[1..]));
    } else {
      LabelSeparates(labels[0]);
    }
  }

  lemma LabelSeparates(word: string)
    requires IsLabel(word)
    ensures HyphensSeparate(word)
  {
  }

  lemma PrefixedSeparates(word: string, rest: string)
    requires IsLabel(word) && HyphensSeparate(rest)
    ensures HyphensSeparate(word + "-" + rest)
  {
    var s := word + "-" + rest;
    forall i | 0 <= i < |s|
      ensures IsAlnum(s[i]) || s[i] == '-'
      ensures i < |s| - 1 ==> !(s[i] == '-' && s[i + 1] == '-')
    {
      if i < |word| {
        assert s[i] == word[i];
      } else if i > |word| {
        assert s[i] == rest[i - |word| - 1];
        if i < |s| - 1 {
          assert s[i + 1] == rest[i - |word|];
        }
      } else {
        assert s[i + 1] == rest[0];
      }
    }
    assert s[0] == word[0] && s[|s| - 1] == rest[|rest| - 1];
  }

  /** Position of the first hyphen, or the length. */
  function FirstHyphen(s: string): (n: nat)
    ensures n <= |s|
    ensures forall i :: 0 <= i < n ==> s[i] != '-'
    ensures n < |s| ==> s[n] == '-'
  {
    if s == "" || s[0] == '-' then 0 else 1 + FirstHyphen(s[1..])
  }

  lemma {:induction false} SplitLabels(name: string) returns (labels: seq<string>)
    requires HyphensSeparate(name)
    ensures AreLabels(labels) && JoinHyphen(labels) == name
    decreases |name|
  {
    var n := FirstHyphen(name);
    if n == |name| {
      labels := [name];
      assert IsLabel(labels[0]);
    } else {
      var first, rest := name[..n], name[n + 1..];
      RestSeparates(name, n);
      var more := SplitLabels(rest);
      labels := [first] + more;
      assert labels[1..] == more;
      assert IsLabel(first);
      assert name == first + "-" + rest;
    }
  }

  lemma RestSeparates(name: string, n: nat)
    requires HyphensSeparate(name) && n < |name| && name[n] == '-'
    ensures 0 < n < |name| - 1
    ensures HyphensSeparate(name[n + 1..])
  {
    var rest := name[n + 1..];
    assert name[n + 1] != '-';
    forall i | 0 <= i < |rest|
      ensures IsAlnum(rest[i]) || rest[i] == '-'
      ensures i < |rest| - 1 ==> !(rest[i] == '-' && rest[i + 1] == '-')
    {
      assert rest[i] == name[n + 1 + i];
      if i < |rest| - 1 {
        assert rest[i + 1] == name[n + 1 + i + 1];
      }
    }
    assert rest[|rest| - 1] == name[|name| - 1];
  }

  // ---------- records ----------

  /** Fields 1 to 3 and 5, without a length before the name. */
  function SignableBytes(rec: NameRecord): bytes {
    rec.name + rec.pubkey + BigEndian(rec.timestamp, 8) + BigEndian(rec.powDifficulty, 4)
  }

  /** Fields 1 to 5. */
  function SignableBytesWithNonce(rec: NameRecord): bytes {
    SignableBytes(rec) + BigEndian(rec.powNonce, 8)
  }

  lemma SameTail(a: bytes, x: bytes, b: bytes, y: bytes)
    requires a + x == b + y && |x| == |y|
    ensures a == b && x == y
  {
    assert |a| == |b|;
    assert a == (a + x)[..|a|] && b == (b + y)[..|b|];
    assert x == (a + x)[|a|..] && y == (b + y)[|b|..];
  }

  lemma SameNumber(m: nat, n: nat, width: nat)
    requires m < Pow256(width) && n < Pow256(width) && BigEndian(m, width) == BigEndian(n, width)
    ensures m == n
  {
    BigEndianRoundTrip(m, width);
    BigEndianRoundTrip(n, width);
  }

  lemma Widths()
    ensures Pow256(4) == 0x1_0000_0000 && Pow256(8) == 0x1_0000_0000_0000_0000
  {
    assert Pow256(4) == 256 * Pow256(3);
    assert Pow256(8) == 256 * Pow256(7) && Pow256(7) == 256 * Pow256(6) && Pow256(6) == 256 * Pow256(5) && Pow256(5) == 256 * Pow256(4);
  }

  /**
   * With 32-byte keys the string read from the right gives every field back, so two records are
   * signed alike exactly when they agree on fields 1 to 5.
   */
  lemma SignedStringDeterminesFields(a: NameRecord, b: NameRecord)
    requires |a.pubkey| == |b.pubkey| == 32
    ensures SignableBytesWithNonce(a) == SignableBytesWithNonce(b) <==>
            && a.name == b.name && a.pubkey == b.pubkey && a.timestamp == b.timestamp
            && a.powDifficulty == b.powDifficulty && a.powNonce == b.powNonce
  {
    hide BigEndian, Pow256;
    if SignableBytesWithNonce(a) == SignableBytesWithNonce(b) {
      Widths();
      SameTail(SignableBytes(a), BigEndian(a.powNonce, 8), SignableBytes(b), BigEndian(b.powNonce, 8));
      SameNumber(a.powNonce, b.powNonce, 8);
      var a3, b3 := a.name + a.pubkey + BigEndian(a.timestamp, 8), b.name + b.pubkey + BigEndian(b.timestamp, 8);
      SameTail(a3, BigEndian(a.powDifficulty, 4), b3, BigEndian(b.powDifficulty, 4));
      SameNumber(a.powDifficulty, b.powDifficulty, 4);
      SameTail(a.name + a.pubkey, BigEndian(a.timestamp, 8), b.name + b.pubkey, BigEndian(b.timestamp, 8));
      SameNumber(a.timestamp, b.timestamp, 8);
      SameTail(a.name, a.pubkey, b.name, b.pubkey);
    }
  }

  /** Without the key length the string is ambiguous: a byte can move from the name to the key. */
  lemma SignedStringIsAmbiguousForOtherKeys()
    ensures exists a: NameRecord, b: NameRecord ::
              a.name != b.name && SignableBytesWithNonce(a) == SignableBytesWithNonce(b)
  {
    var a := NameRecord([97, 98], [99], 0, 0, 0, [], []);
    var b := NameRecord([97], [98, 99], 0, 0, 0, [], []);
    assert a.name + a.pubkey == [97, 98, 99] == b.name + b.pubkey;
    assert SignableBytesWithNonce(a) == SignableBytesWithNonce(b);
  }

  datatype BuildNameError = BadName(cause: NameError)

  function UnstampedRecord(name: bytes, kp: KeyPair, timestamp: uint64): NameRecord {
    NameRecord(name, kp.publicKey, timestamp, 0, NAME_DIFFICULTY, [], [])
  }

  function BuiltRecord(s: Suite, name: bytes, kp: KeyPair, timestamp: uint64): Result<NameRecord, BuildNameError> {
    match ValidateName(Text(name))
    case Err(e) => Err(BadName(e))
    case Ok(_) =>
      var bare := UnstampedRecord(name, kp, timestamp);
      Pow.ComputeIsLeast(s.sha256, SignableBytes(bare), NAME_DIFFICULTY);
      var stamped := bare.(powNonce := Pow.Search(s.sha256, SignableBytes(bare), NAME_DIFFICULTY, 0).value);
      Ok(stamped.(signature := s.sign(kp.seed, SignableBytesWithNonce(stamped))))
  }

  /** BuildNameRecord fills the record field by field. */
  method BuildNameRecord(s: Suite, name: bytes, kp: KeyPair, timestamp: uint64)
    returns (r: Result<NameRecord, BuildNameError>)
    ensures r == BuiltRecord(s, name, kp, timestamp)
  {
    var valid := ValidateName(Text(name));
    if valid.Err? {
      return Err(BadName(valid.error));
    }
    var rec := UnstampedRecord(name, kp, timestamp);
    var nonce := Pow.Compute(s.sha256, SignableBytes(rec), NAME_DIFFICULTY);
    Pow.ComputeIsLeast(s.sha256, SignableBytes(rec), NAME_DIFFICULTY);
    rec := rec.(powNonce := nonce.value);
    rec := rec.(signature := s.sign(kp.seed, SignableBytesWithNonce(rec)));
    return Ok(rec);
  }

  datatype VerifyNameError =
    | InvalidName(cause: NameError) | BadKeyLength | TooEasy | InvalidPow | PowPanic | InvalidSignature

  function VerifyNameRecord(s: Suite, rec: NameRecord): Result<(), VerifyNameError> {
    match ValidateName(Text(rec.name))
    case Err(e) => Err(InvalidName(e))
    case Ok(_) =>
      if |rec.pubkey| != 32 then Err(BadKeyLength)
      else if rec.powDifficulty < NAME_DIFFICULTY then Err(TooEasy)
      else match Pow.Check(s.sha256, SignableBytes(rec), rec.powNonce, rec.powDifficulty)
        case IndexPanic => Err(PowPanic)
        case NotMet => Err(InvalidPow)
        case Met =>
          if s.checkSignature(rec.pubkey, SignableBytesWithNonce(rec), rec.signature) then Ok(())
          else Err(InvalidSignature)
  }

  /** A built record is accepted exactly when its puzzle had a solution. */
  lemma BuiltRecordVerifies(s: Suite, name: bytes, kp: KeyPair, timestamp: uint64)
    requires Laws(s) && kp.publicKey == s.publicKey(kp.seed)
    requires BuiltRecord(s, name, kp, timestamp).Ok?
    ensures VerifyNameRecord(s, BuiltRecord(s, name, kp, timestamp).value) == Ok(()) <==>
            Pow.Solvable(s.sha256, SignableBytes(UnstampedRecord(name, kp, timestamp)), NAME_DIFFICULTY)
  {
    hide ValidateName, Pow.Search, Pow.Check;
    var data := SignableBytes(UnstampedRecord(name, kp, timestamp));
    var rec := BuiltRecord(s, name, kp, timestamp).value;
    assert SignableBytes(rec) == data;
    Pow.ComputeIsLeast(s.sha256, data, NAME_DIFFICULTY);
    Pow.SearchEnds(s.sha256, data, NAME_DIFFICULTY, 0);
    assert s.checkSignature(rec.pubkey, SignableBytesWithNonce(rec), rec.signature);
  }

  /** What a built record says: the name as given, the registrant's key, the time, difficulty 28, signed with his key. */
  lemma BuiltRecordSays(s: Suite, name: bytes, kp: KeyPair, timestamp: uint64, rec: NameRecord)
    requires BuiltRecord(s, name, kp, timestamp) == Ok(rec)
    ensures rec.name == name && rec.pubkey == kp.publicKey && rec.timestamp == timestamp && rec.powDifficulty == 28
    ensures rec.signature == s.sign(kp.seed, SignableBytesWithNonce(rec)) && rec.unknown == []
    ensures rec.powNonce == 0 || Pow.Check(s.sha256, SignableBytes(rec), rec.powNonce, 28) == Pow.Met
  {
    hide ValidateName, Pow.Search, Pow.Check;
    Pow.ComputeIsLeast(s.sha256, SignableBytes(UnstampedRecord(name, kp, timestamp)), NAME_DIFFICULTY);
  }

  // ---------- what a verified record is ----------

  /**
   * A record is accepted exactly when its name is an unreserved name, its key has 32 bytes, its
   * difficulty is at least 28 and met by the hash, and its signature over fields 1 to 5 checks under
   * its own key.
   */
  lemma AcceptedExactly(s: Suite, rec: NameRecord)
    ensures VerifyNameRecord(s, rec) == Ok(()) <==>
            && 3 <= |rec.name| <= 32 && IsHyphenated(Text(rec.name))
            && Text(rec.name) !in {"admin", "root", "system", "dmail", "postmaster", "abuse", "support", "help",
                                   "null", "nobody", "daemon", "mailer-daemon"}
            && |rec.pubkey| == 32 && 28 <= rec.powDifficulty <= 256
            && BigEndianValue(s.sha256(SignableBytes(rec) + BigEndian(rec.powNonce, 8))) < Pow2(256 - rec.powDifficulty)
            && s.checkSignature(rec.pubkey, SignableBytesWithNonce(rec), rec.signature)
  {
    hide ValidateName, IsHyphenated, BigEndianValue, BigEndian, Pow2, Pow.Check, SignableBytes, SignableBytesWithNonce;
    ValidNamesAreLabels(Text(rec.name));
    NameVerdict(Text(rec.name));
    Packet.PuzzleIsMet(s.sha256, SignableBytes(rec), rec.powNonce, rec.powDifficulty);
  }

  /** The refusals of a record, in the order name, key, difficulty, puzzle, signature. */
  lemma RefusedExactly(s: Suite, rec: NameRecord, e: NameError)
    ensures var r, named := VerifyNameRecord(s, rec), ValidateName(Text(rec.name));
      var hash := s.sha256(SignableBytes(rec) + BigEndian(rec.powNonce, 8));
      var keyed := named.Ok? && |rec.pubkey| == 32 && rec.powDifficulty >= 28;
      var met := rec.powDifficulty <= 256 && BigEndianValue(hash) < Pow2(256 - rec.powDifficulty);
      && (r == Err(InvalidName(e)) <==> named == Err(e))
      && (r == Err(BadKeyLength) <==> named.Ok? && |rec.pubkey| != 32)
      && (r == Err(TooEasy) <==> named.Ok? && |rec.pubkey| == 32 && rec.powDifficulty < 28)
      && (r == Err(PowPanic) <==> keyed && rec.powDifficulty > 256 && hash == seq(32, _ => 0))
      && (r == Err(InvalidPow) <==> keyed && !met && !(rec.powDifficulty > 256 && hash == seq(32, _ => 0)))
      && (r == Err(InvalidSignature) <==>
            keyed && met && !s.checkSignature(rec.pubkey, SignableBytesWithNonce(rec), rec.signature))
  {
    hide ValidateName, BigEndianValue, BigEndian, Pow2, Pow.Check, SignableBytes, SignableBytesWithNonce;
    Packet.PuzzleIsMet(s.sha256, SignableBytes(rec), rec.powNonce, rec.powDifficulty);
    Packet.PuzzlePanics(s.sha256, SignableBytes(rec), rec.powNonce, rec.powDifficulty);
  }

  lemma NameVerdict(name: string)
    ensures ValidateName(name).Ok? <==> ValidateName(name) == Ok(())
  {
  }

  lemma VerdictOf(s: Suite, rec: NameRecord)
    ensures VerifyNameRecord(s, rec).Ok? <==> VerifyNameRecord(s, rec) == Ok(())
  {
    hide ValidateName, Pow.Check, SignableBytes, SignableBytesWithNonce;
  }

  /** A record whose signature does not check under the key it names is refused. */
  lemma ForgedRecordIsRefused(s: Suite, rec: NameRecord)
    requires !s.checkSignature(rec.pubkey, SignableBytesWithNonce(rec), rec.signature)
    ensures VerifyNameRecord(s, rec).Err?
  {
    hide IsHyphenated, BigEndianValue, BigEndian, Pow2, SignableBytes, SignableBytesWithNonce, VerifyNameRecord;
    AcceptedExactly(s, rec);
    VerdictOf(s, rec);
  }

  /** The stamped string is name, key, time and difficulty, the numbers most significant byte first; the signed one adds the nonce. */
  lemma SignedStringLayout(rec: NameRecord)
    ensures var a, b, n := SignableBytes(rec), SignableBytesWithNonce(rec), |rec.name| + |rec.pubkey|;
      && |a| == n + 12 && |b| == n + 20
      && a[..|rec.name|] == rec.name && a[|rec.name|..n] == rec.pubkey
      && BigEndianValue(a[n..n + 8]) == rec.timestamp && BigEndianValue(a[n + 8..]) == rec.powDifficulty
      && b[..n + 12] == a && BigEndianValue(b[n + 12..]) == rec.powNonce
  {
    hide BigEndian, BigEndianValue, Pow256;
    var a, n := SignableBytes(rec), |rec.name| + |rec.pubkey|;
    assert a == rec.name + rec.pubkey + BigEndian(rec.timestamp, 8) + BigEndian(rec.powDifficulty, 4);
    Widths();
    BigEndianRoundTrip(rec.timestamp, 8);
    BigEndianRoundTrip(rec.powDifficulty, 4);
    BigEndianRoundTrip(rec.powNonce, 8);
    assert a[n..n + 8] == BigEndian(rec.timestamp, 8) && a[n + 8..] == BigEndian(rec.powDifficulty, 4);
    assert SignableBytesWithNonce(rec)[n + 12..] == BigEndian(rec.powNonce, 8);
  }
}
