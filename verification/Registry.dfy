/** pkg/node/node.go: the validators of the two DHT namespaces and the merge of name records. */
module Registry {
  import opened Bytes
  import opened Messages
  import opened Crypto
  import Packet
  import Names
  import Pow

  // ---------- packets ----------

  datatype PacketVerdict = Accepted | RawTooLarge | NotAPacket | Refused(cause: Packet.VerifyError)

  /** dmailValidator.Validate: the size of the raw value, then the packet it holds. */
  function ValidatePacket(s: Suite, value: bytes, now: int): PacketVerdict {
    if |value| > Packet.MAX_PACKET_SIZE then RawTooLarge
    else match UnmarshalPacket(value)
      case None => NotAPacket
      case Some(p) =>
        match Packet.Verify(s, p, now)
        case Err(e) => Refused(e)
        case Ok(_) => Accepted
  }

  /** What Push hands to the DHT is accepted by a replica exactly when the packet itself verifies. */
  lemma PushedPacketIsJudgedAlike(s: Suite, p: DmailPacket, now: int)
    requires PacketHolds(p)
    ensures ValidatePacket(s, MarshalPacket(p), now) == Accepted <==> Packet.Verify(s, p, now) == Ok(())
  {
    hide MarshalPacket, UnmarshalPacket;
    PacketRoundTrip(p);
  }

  // ---------- names ----------

  /** The timestamp of a value that is a verified name record. */
  function ValidTime(s: Suite, value: bytes): Option<uint64> {
    match UnmarshalName(value)
    case None => None
    case Some(rec) => if Names.VerifyNameRecord(s, rec).Ok? then Some(rec.timestamp) else None
  }

  datatype Best = Best(index: nat, time: uint64)

  /** The winner among the first n values, as the loop of Select keeps it; time 0 means "none yet". */
  function Winner(times: seq<Option<uint64>>, n: nat): Best
    requires n <= |times|
  {
    if n == 0 then Best(0, 0)
    else
      var b := Winner(times, n - 1);
      match times[n - 1]
      case None => b
      case Some(t) => if b.time == 0 || t < b.time then Best(n - 1, t) else b
  }

  function Times(s: Suite, values: seq<bytes>): (times: seq<Option<uint64>>)
    ensures |times| == |values|
    ensures forall i :: 0 <= i < |values| ==> times[i] == ValidTime(s, values[i])
  {
    seq(|values|, i requires 0 <= i < |values| => ValidTime(s, values[i]))
  }

  function Selected(s: Suite, values: seq<bytes>): nat {
    Winner(Times(s, values), |values|).index
  }

  /** namesValidator.Select; None for an empty list. */
  method Select(s: Suite, values: seq<bytes>) returns (r: Option<nat>)
    ensures r == if values == [] then None else Some(Selected(s, values))
  {
    hide UnmarshalName, Names.VerifyNameRecord;
    if |values| == 0 {
      return None;
    }
    var bestIdx := 0;
    var bestTS: uint64 := 0;
    ghost var times := Times(s, values);
    for i := 0 to |values|
      invariant Winner(times, i) == Best(bestIdx, bestTS)
    {
      assert times[i] == ValidTime(s, values[i]);
      var rec := UnmarshalName(values[i]);
      if rec.None? {
        continue;
      }
      var verdict := Names.VerifyNameRecord(s, rec.value);
      if verdict.Err? {
        continue;
      }
      if bestTS == 0 || rec.value.timestamp < bestTS {
        bestTS := rec.value.timestamp;
        bestIdx := i;
      }
    }
    return Some(bestIdx);
  }

  /** First come, first served: i is the first index among the valid records of least timestamp. */
  ghost predicate IsFirstLeast(times: seq<Option<uint64>>, n: nat, i: nat)
    requires n <= |times|
  {
    && i < n && times[i].Some?
    && (forall j :: 0 <= j < n && times[j].Some? ==> times[i].value <= times[j].value)
    && (forall j :: 0 <= j < i && times[j].Some? ==> times[i].value < times[j].value)
  }

  ghost predicate AnyValid(times: seq<Option<uint64>>, n: nat)
    requires n <= |times|
  {
    exists i :: 0 <= i < n && times[i].Some?
  }

  ghost predicate NoZero(times: seq<Option<uint64>>, from: nat, n: nat)
    requires n <= |times|
  {
    forall i :: from <= i < n ==> times[i] != Some(0)
  }

  lemma {:induction false} WinnerWithoutZero(times: seq<Option<uint64>>, n: nat)
    requires n <= |times| && NoZero(times, 0, n)
    ensures var b := Winner(times, n);
            if AnyValid(times, n) then IsFirstLeast(times, n, b.index) && times[b.index] == Some(b.time)
            else b == Best(0, 0)
  {
    if n != 0 {
      WinnerWithoutZero(times, n - 1);
      assert times[n - 1] != Some(0);
      if AnyValid(times, n - 1) {
        assert AnyValid(times, n);
      }
    }
  }

  /** After a valid record with timestamp 0 the comparison starts over. */
  lemma {:induction false} WinnerAfterZero(times: seq<Option<uint64>>, z: nat, n: nat)
    requires z < n <= |times| && times[z] == Some(0) && NoZero(times, z + 1, n)
    ensures var b := Winner(times, n);
            if exists i :: z < i < n && times[i].Some? then b.index > z && b.time > 0 else b == Best(z, 0)
  {
    if n == z + 1 {
    } else {
      WinnerAfterZero(times, z, n - 1);
      assert times[n - 1] != Some(0);
      if times[n - 1].Some? {
        assert z < n - 1 < n && times[n - 1].Some?;
      }
    }
  }

  lemma {:induction false} LastZero(times: seq<Option<uint64>>, n: nat) returns (z: nat)
    requires n <= |times| && !NoZero(times, 0, n)
    ensures z < n && times[z] == Some(0) && NoZero(times, z + 1, n)
  {
    if times[n - 1] == Some(0) {
      z := n - 1;
    } else {
      z := LastZero(times, n - 1);
    }
  }

  /** A valid record with timestamp 0 is harmless only as the only one, with no valid record after it. */
  ghost predicate ZeroOnlyLast(times: seq<Option<uint64>>)
  {
    forall z :: 0 <= z < |times| && times[z] == Some(0) ==>
      forall i :: 0 <= i < |times| && i != z && times[i].Some? ==> i < z && times[i] != Some(0)
  }

  /**
   * Select is first come, first served exactly when no valid record carries timestamp 0, or a
   * single one does and no valid record follows it. Without a valid record it answers 0.
   */
  lemma SelectIsFirstComeFirstServed(s: Suite, values: seq<bytes>)
    requires values != []
    ensures var times := Times(s, values);
            && (AnyValid(times, |values|) ==>
                  (IsFirstLeast(times, |values|, Selected(s, values)) <==> ZeroOnlyLast(times)))
            && (!AnyValid(times, |values|) ==> Selected(s, values) == 0)
  {
    hide ValidTime;
    var times, n := Times(s, values), |values|;
    if NoZero(times, 0, n) {
      WinnerWithoutZero(times, n);
    } else {
      var z := LastZero(times, n);
      WinnerAfterZero(times, z, n);
      assert AnyValid(times, n);
      var b := Winner(times, n);
      if ZeroOnlyLast(times) {
        assert IsFirstLeast(times, n, z);
      } else if IsFirstLeast(times, n, b.index) {
        assert times[b.index].value <= times[z].value;
        ZeroFollowed(times, z);
      }
    }
  }

  lemma ZeroFollowed(times: seq<Option<uint64>>, z: nat)
    requires z < |times| && times[z] == Some(0) && NoZero(times, z + 1, |times|)
    requires !ZeroOnlyLast(times)
    ensures (exists i :: z < i < |times| && times[i].Some?) || (exists j :: 0 <= j < z && times[j] == Some(0))
  {
  }

  /** A record stamped 0 loses to a later one that is listed after it. */
  lemma ZeroTimestampLoses(times: seq<Option<uint64>>)
    requires times == [Some(0), Some(5)]
    ensures Winner(times, 2).index == 1 && !IsFirstLeast(times, 2, 1)
  {
    assert Winner(times, 1) == Best(0, 0);
    assert times[0] == Some(0);
  }

  // ---------- a replica's run ----------

  /** Records that arrive together; the record already held is listed at some position among them. */
  datatype Arrival = Arrival(values: seq<bytes>, position: nat)

  function Candidates(held: Option<bytes>, a: Arrival): seq<bytes> {
    match held
    case None => a.values
    case Some(v) => if a.position <= |a.values| then a.values[..a.position] + [v] + a.values[a.position..] else a.values + [v]
  }

  /** A replica keeps the record that Select picks. */
  function Keep(s: Suite, held: Option<bytes>, a: Arrival): Option<bytes> {
    var c := Candidates(held, a);
    if c == [] then None
    else
      WinnerInRange(Times(s, c), |c|);
      Some(c[Selected(s, c)])
  }

  lemma {:induction false} WinnerInRange(times: seq<Option<uint64>>, n: nat)
    requires n <= |times|
    ensures Winner(times, n).index < n || Winner(times, n).index == 0
  {
    if n != 0 {
      WinnerInRange(times, n - 1);
    }
  }

  function Held(s: Suite, run: seq<Arrival>): Option<bytes> {
    if run == [] then None else Keep(s, Held(s, run[..|run| - 1]), run[|run| - 1])
  }

  function Elements(values: seq<bytes>): set<bytes> {
    set v | v in values
  }

  /** Every value a replica has seen. */
  function Seen(run: seq<Arrival>): set<bytes> {
    if run == [] then {} else Seen(run[..|run| - 1]) + Elements(run[|run| - 1].values)
  }

  /** Seen are the values of all batches, and no others. */
  lemma {:induction false} SeenIsWhatArrived(run: seq<Arrival>, v: bytes)
    ensures v in Seen(run) <==> exists i :: 0 <= i < |run| && v in run[i].values
  {
    if run != [] {
      var init, last := run[..|run| - 1], run[|run| - 1];
      SeenIsWhatArrived(init, v);
      if v in Seen(init) {
        var i :| 0 <= i < |init| && v in init[i].values;
        assert run[i] == init[i];
      }
      if i :| 0 <= i < |run| && v in run[i].values {
        assert i < |init| ==> init[i] == run[i];
      }
    }
  }

  ghost predicate Stamped(s: Suite, seen: set<bytes>) {
    forall v :: v in seen ==> ValidTime(s, v) != Some(0)
  }

  ghost predicate HoldsLeast(s: Suite, held: Option<bytes>, seen: set<bytes>) {
    && (held.Some? ==> held.value in seen)
    && forall v :: v in seen && ValidTime(s, v).Some? ==>
         held.Some? && ValidTime(s, held.value).Some? && ValidTime(s, held.value).value <= ValidTime(s, v).value
  }

  lemma CandidateValues(held: Option<bytes>, a: Arrival)
    ensures forall v :: v in Candidates(held, a) <==> v in a.values || held == Some(v)
  {
    if held.Some? && a.position <= |a.values| {
      assert a.values == a.values[..a.position] + a.values[a.position..];
    }
  }

  lemma KeepHoldsLeast(s: Suite, held: Option<bytes>, a: Arrival, seen: set<bytes>)
    requires HoldsLeast(s, held, seen)
    requires Stamped(s, seen + Elements(a.values))
    ensures HoldsLeast(s, Keep(s, held, a), seen + Elements(a.values))
  {
    hide ValidTime, Candidates;
    var c := Candidates(held, a);
    var all := seen + Elements(a.values);
    var times := Times(s, c);
    CandidateValues(held, a);
    if c != [] {
      assert NoZero(times, 0, |c|) by {
        forall i | 0 <= i < |c|
          ensures times[i] != Some(0)
        {
          assert c[i] in c;
        }
      }
      WinnerWithoutZero(times, |c|);
      WinnerInRange(times, |c|);
      var kept := c[Selected(s, c)];
      assert kept in c;
      forall v | v in all && ValidTime(s, v).Some?
        ensures ValidTime(s, kept).Some? && ValidTime(s, kept).value <= ValidTime(s, v).value
      {
        var w := if v in a.values then v else held.value;
        assert w in c;
        var j :| 0 <= j < |c| && c[j] == w;
        assert times[j].Some?;
        assert AnyValid(times, |c|);
      }
    }
  }

  /** In any run of stamped records a replica holds a valid record of the least timestamp it has seen. */
  lemma {:induction false} ReplicaHoldsLeast(s: Suite, run: seq<Arrival>)
    requires Stamped(s, Seen(run))
    ensures HoldsLeast(s, Held(s, run), Seen(run))
  {
    if run != [] {
      ReplicaHoldsLeast(s, run[..|run| - 1]);
      KeepHoldsLeast(s, Held(s, run[..|run| - 1]), run[|run| - 1], Seen(run[..|run| - 1]));
    }
  }

  /**
   * Two replicas that have seen the same records, in whatever order and grouping, agree on the
   * least timestamp, and on the record itself when distinct records carry distinct timestamps.
   */
  lemma ReplicasConverge(s: Suite, run: seq<Arrival>, other: seq<Arrival>)
    requires Seen(run) == Seen(other) && Stamped(s, Seen(run))
    requires exists v :: v in Seen(run) && ValidTime(s, v).Some?
    ensures Held(s, run).Some? && Held(s, other).Some?
    ensures ValidTime(s, Held(s, run).value).Some?
    ensures ValidTime(s, Held(s, run).value) == ValidTime(s, Held(s, other).value)
    ensures (forall v, w :: v in Seen(run) && w in Seen(run) && ValidTime(s, v).Some? && ValidTime(s, v) == ValidTime(s, w) ==> v == w)
            ==> Held(s, run) == Held(s, other)
  {
    hide ValidTime, Held, Seen;
    ReplicaHoldsLeast(s, run);
    ReplicaHoldsLeast(s, other);
  }

  // ---------- what is accepted, held and selected ----------

  /** A replica accepts exactly the raw values of at most 262144 bytes that are packets Verify accepts. */
  lemma ReplicaAcceptsExactly(s: Suite, value: bytes, now: int)
    ensures ValidatePacket(s, value, now) == Accepted <==>
            && |value| <= 262144 && UnmarshalPacket(value).Some? && Packet.Verify(s, UnmarshalPacket(value).value, now) == Ok(())
    ensures ValidatePacket(s, value, now) == Accepted ==>
              var p := UnmarshalPacket(value).value;
              |p.senderPubkey| == 32 && s.checkSignature(p.senderPubkey, Packet.SignableBytesWithNonce(p), p.signature)
  {
    hide UnmarshalPacket, MarshalPacket, Pow2, BigEndian, BigEndianValue, Packet.PacketSecond, Pow.Check;
    if UnmarshalPacket(value).Some? { Packet.AcceptedExactly(s, UnmarshalPacket(value).value, now); }
  }

  /** The value is the registration of a name by the holder of a key. */
  ghost predicate IsRegistration(s: Suite, value: bytes, rec: NameRecord) {
    && UnmarshalName(value) == Some(rec)
    && 3 <= |rec.name| <= 32 && Names.IsHyphenated(Text(rec.name))
    && Text(rec.name) !in {"admin", "root", "system", "dmail", "postmaster", "abuse", "support", "help",
                           "null", "nobody", "daemon", "mailer-daemon"}
    && |rec.pubkey| == 32 && 28 <= rec.powDifficulty <= 256
    && BigEndianValue(s.sha256(Names.SignableBytes(rec) + BigEndian(rec.powNonce, 8))) < Pow2(256 - rec.powDifficulty)
    && s.checkSignature(rec.pubkey, Names.SignableBytesWithNonce(rec), rec.signature)
  }

  /** A value competes, with a time, exactly when it is a registration of that time. */
  lemma CompetesExactly(s: Suite, value: bytes, t: uint64)
    ensures ValidTime(s, value) == Some(t) <==> exists rec :: IsRegistration(s, value, rec) && rec.timestamp == t
    ensures ValidTime(s, value).Some? <==> exists rec :: IsRegistration(s, value, rec)
  {
    hide UnmarshalName, Names.VerifyNameRecord, Names.IsHyphenated, Pow2, BigEndian, BigEndianValue;
    hide Names.SignableBytes, Names.SignableBytesWithNonce;
    match UnmarshalName(value) {
      case None =>
      case Some(rec) =>
        Names.AcceptedExactly(s, rec);
        Names.VerdictOf(s, rec);
        assert Names.VerifyNameRecord(s, rec).Ok? <==> IsRegistration(s, value, rec);
    }
  }

  lemma {:induction false} WinnerIsValid(times: seq<Option<uint64>>, n: nat)
    requires n <= |times|
    ensures var b := Winner(times, n);
      if AnyValid(times, n) then b.index < n && times[b.index] == Some(b.time) else b == Best(0, 0)
  {
    if n != 0 {
      WinnerIsValid(times, n - 1);
      if AnyValid(times, n - 1) { assert AnyValid(times, n); }
    }
  }

  ghost predicate SomeRegistration(s: Suite, values: seq<bytes>) {
    exists i, rec :: 0 <= i < |values| && IsRegistration(s, values[i], rec)
  }

  /** What Select returns is a registration whenever one is listed, whatever else is. */
  lemma SelectReturnsARegistration(s: Suite, values: seq<bytes>)
    requires SomeRegistration(s, values)
    ensures Selected(s, values) < |values| && exists rec :: IsRegistration(s, values[Selected(s, values)], rec)
  {
    hide ValidTime, IsRegistration;
    var i, rec :| 0 <= i < |values| && IsRegistration(s, values[i], rec);
    var times := Times(s, values);
    CompetesExactly(s, values[i], 0);
    assert times[i].Some? && AnyValid(times, |values|);
    WinnerIsValid(times, |values|);
    CompetesExactly(s, values[Selected(s, values)], 0);
  }

  /** And it is the first among the earliest, when none of them is stamped 0: no later, and no forged, record takes its place. */
  lemma SelectReturnsTheEarliest(s: Suite, values: seq<bytes>, rec: NameRecord, j: nat, other: NameRecord)
    requires forall i, r :: 0 <= i < |values| && IsRegistration(s, values[i], r) ==> r.timestamp != 0
    requires j < |values| && IsRegistration(s, values[j], other)
    requires Selected(s, values) < |values| && IsRegistration(s, values[Selected(s, values)], rec)
    ensures rec.timestamp <= other.timestamp && (j < Selected(s, values) ==> rec.timestamp < other.timestamp)
  {
    var times, n := Times(s, values), |values|;
    OneRecord(s, values[j], other);
    OneRecord(s, values[Selected(s, values)], rec);
    hide ValidTime, IsRegistration;
    assert AnyValid(times, n);
    forall i | 0 <= i < n
      ensures times[i] != Some(0)
    {
      CompetesExactly(s, values[i], 0);
    }
    WinnerWithoutZero(times, n);
  }

  lemma OneRecord(s: Suite, value: bytes, rec: NameRecord)
    requires IsRegistration(s, value, rec)
    ensures ValidTime(s, value) == Some(rec.timestamp)
  {
    hide UnmarshalName, Names.IsHyphenated, Pow2, BigEndian, BigEndianValue, ValidTime, Names.SignableBytes, Names.SignableBytesWithNonce;
    CompetesExactly(s, value, rec.timestamp);
  }

  /** Over any run of arrivals a replica holds a registration as soon as one has arrived, whatever stamps they carry. */
  lemma {:induction false} ReplicaHoldsARegistration(s: Suite, run: seq<Arrival>, value: bytes, rec: NameRecord)
    requires value in Seen(run) && IsRegistration(s, value, rec)
    ensures Held(s, run).Some? && exists r :: IsRegistration(s, Held(s, run).value, r)
  {
    hide IsRegistration, Selected, Candidates, ValidTime;
    var before, a := run[..|run| - 1], run[|run| - 1];
    var held := Held(s, before);
    var c := Candidates(held, a);
    CandidateValues(held, a);
    if value in Seen(before) {
      ReplicaHoldsARegistration(s, before, value, rec);
      var r :| IsRegistration(s, held.value, r);
      ListedRegistration(s, c, held.value, r);
    } else {
      ListedRegistration(s, c, value, rec);
    }
    SelectReturnsARegistration(s, c);
  }

  lemma ListedRegistration(s: Suite, values: seq<bytes>, value: bytes, rec: NameRecord)
    requires value in values && IsRegistration(s, value, rec)
    ensures SomeRegistration(s, values)
  {
    hide IsRegistration;
    var i :| 0 <= i < |values| && values[i] == value;
    assert IsRegistration(s, values[i], rec);
  }

  /** A replica's registration is no later than any that arrived, when none was stamped 0. */
  lemma ReplicaHoldsTheEarliest(s: Suite, run: seq<Arrival>, value: bytes, rec: NameRecord, held: NameRecord)
    requires forall v, r :: v in Seen(run) && IsRegistration(s, v, r) ==> r.timestamp != 0
    requires value in Seen(run) && IsRegistration(s, value, rec)
    requires Held(s, run).Some? && IsRegistration(s, Held(s, run).value, held)
    ensures Held(s, run).value in Seen(run) && held.timestamp <= rec.timestamp
  {
    OneRecord(s, value, rec);
    OneRecord(s, Held(s, run).value, held);
    hide ValidTime, IsRegistration, Held, Seen;
    forall v | v in Seen(run)
      ensures ValidTime(s, v) != Some(0)
    {
      CompetesExactly(s, v, 0);
    }
    ReplicaHoldsLeast(s, run);
  }
}
